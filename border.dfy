/** The five-slot border layout (`BorderState`): a column of north, a row of
    west / center / east, and south, each slot a single-child container. */
module Border {
  import opened Dimensions
  import Common

  datatype BorderSlot = North | West | East | South | Center

  /** A single-child container with its two expansion hacks (`Container`
      together with its `LayoutHacks`). */
  class Container {
    var child: Option<WidgetId>
    var expandHorizontally: bool
    var expandVertically: bool

    constructor()
      ensures child == None && !expandHorizontally && !expandVertically
    {
      child := None;
      expandHorizontally := false;
      expandVertically := false;
    }

    /** Puts `w` in the container, replacing any previous child. */
    method Set(w: WidgetId)
      modifies this
      ensures child == Some(w)
      ensures expandHorizontally == old(expandHorizontally) && expandVertically == old(expandVertically)
    {
      child := Some(w);
    }
  }

  /** An entry of the border's column: one of the slot containers, or the inner row. */
  datatype Part = Slot(container: Container) | InnerRow

  class BorderState {
    const north: Container
    const west: Container
    const center: Container
    const east: Container
    const south: Container
    /** The children of the inner row, in order. */
    const row: seq<Container>
    /** The children of the outer column, in order. */
    const column: seq<Part>
    /** The outer column's per-widget state: its memo and layout token. */
    const columnCommon: Common.WidgetCommon

    /** The container that backs `slot`. */
    function SlotContainer(slot: BorderSlot): Container {
      match slot
      case North => north
      case West => west
      case East => east
      case South => south
      case Center => center
    }

    /** The five slots are five different containers. */
    ghost predicate Distinct() {
      forall s, t :: s != t ==> SlotContainer(s) != SlotContainer(t)
    }

    /** `create`: five empty containers; only the center expands; the column
        holds north, the row and south, and the row holds west, center and east. */
    constructor()
      ensures Distinct()
      ensures fresh(north) && fresh(west) && fresh(center) && fresh(east) && fresh(south)
      ensures forall s :: SlotContainer(s).child == None
      ensures forall s :: SlotContainer(s).expandHorizontally <==> s == Center
      ensures forall s :: SlotContainer(s).expandVertically <==> s == Center
      ensures row == [west, center, east]
      ensures column == [Slot(north), InnerRow, Slot(south)]
      ensures fresh(columnCommon) && columnCommon.memo == Common.Cleared() && columnCommon.layoutToken == 0
    {
      var n := new Container();
      var w := new Container();
      var c := new Container();
      c.expandHorizontally := true;
      c.expandVertically := true;
      var e := new Container();
      var s := new Container();
      north, west, center, east, south := n, w, c, e, s;
      row := [w, c, e];
      column := [Slot(n), InnerRow, Slot(s)];
      columnCommon := new Common.WidgetCommon();
    }

    /** `set`: puts `w` in the container for `slot`; the other four slots and
        every expansion flag stay as they were. */
    method Set(slot: BorderSlot, w: WidgetId)
      requires Distinct()
      modifies SlotContainer(slot)
      ensures SlotContainer(slot).child == Some(w)
      ensures forall s :: s != slot ==> SlotContainer(s).child == old(SlotContainer(s).child)
      ensures forall s :: SlotContainer(s).expandHorizontally == old(SlotContainer(s).expandHorizontally)
      ensures forall s :: SlotContainer(s).expandVertically == old(SlotContainer(s).expandVertically)
    {
      match slot {
        case North => north.Set(w);
        case West => west.Set(w);
        case East => east.Set(w);
        case South => south.Set(w);
        case Center => center.Set(w);
      }
    }

    method SetNorth(w: WidgetId)
      requires Distinct()
      modifies north
      ensures north.child == Some(w)
      ensures forall s :: s != North ==> SlotContainer(s).child == old(SlotContainer(s).child)
      ensures forall s :: SlotContainer(s).expandHorizontally == old(SlotContainer(s).expandHorizontally)
      ensures forall s :: SlotContainer(s).expandVertically == old(SlotContainer(s).expandVertically)
    {
      Set(North, w);
    }

    method SetWest(w: WidgetId)
      requires Distinct()
      modifies west
      ensures west.child == Some(w)
      ensures forall s :: s != West ==> SlotContainer(s).child == old(SlotContainer(s).child)
      ensures forall s :: SlotContainer(s).expandHorizontally == old(SlotContainer(s).expandHorizontally)
      ensures forall s :: SlotContainer(s).expandVertically == old(SlotContainer(s).expandVertically)
    {
      Set(West, w);
    }

    method SetEast(w: WidgetId)
      requires Distinct()
      modifies east
      ensures east.child == Some(w)
      ensures forall s :: s != East ==> SlotContainer(s).child == old(SlotContainer(s).child)
      ensures forall s :: SlotContainer(s).expandHorizontally == old(SlotContainer(s).expandHorizontally)
      ensures forall s :: SlotContainer(s).expandVertically == old(SlotContainer(s).expandVertically)
    {
      Set(East, w);
    }

    method SetSouth(w: WidgetId)
      requires Distinct()
      modifies south
      ensures south.child == Some(w)
      ensures forall s :: s != South ==> SlotContainer(s).child == old(SlotContainer(s).child)
      ensures forall s :: SlotContainer(s).expandHorizontally == old(SlotContainer(s).expandHorizontally)
      ensures forall s :: SlotContainer(s).expandVertically == old(SlotContainer(s).expandVertically)
    {
      Set(South, w);
    }

    method SetCenter(w: WidgetId)
      requires Distinct()
      modifies center
      ensures center.child == Some(w)
      ensures forall s :: s != Center ==> SlotContainer(s).child == old(SlotContainer(s).child)
      ensures forall s :: SlotContainer(s).expandHorizontally == old(SlotContainer(s).expandHorizontally)
      ensures forall s :: SlotContainer(s).expandVertically == old(SlotContainer(s).expandVertically)
    {
      Set(Center, w);
    }

    /** `estimate_dimensions`: the border reports what its column reports at the
        same width; `columnEstimate` stands for the column's estimate followed by
        `to_internal`. */
    method EstimateDimensions(columnEstimate: int -> Dims, width: int) returns (d: Dims)
      ensures d == columnEstimate(width)
    {
      d := columnEstimate(width);
    }

    /** `clear_layout_cache`: hands the clear to the column's
        `clear_layout_cache_if_needed`; `forwarded` is whether the column's own
        clear ran, which passes it on to the column's children. */
    method ClearLayoutCache(uiToken: nat) returns (forwarded: bool)
      modifies columnCommon
      ensures (columnCommon.layoutToken, columnCommon.memo, forwarded)
           == Common.ClearIfNeeded(old(columnCommon.layoutToken), old(columnCommon.memo), uiToken)
      ensures columnCommon.selected == old(columnCommon.selected)
    {
      forwarded := columnCommon.ClearLayoutCacheIfNeeded(uiToken);
    }
  }

  /** Filling all five slots of a fresh border: each slot holds its own child,
      and still only the center expands. */
  method FillBorder(n: WidgetId, w: WidgetId, c: WidgetId, e: WidgetId, s: WidgetId)
    returns (children: seq<Option<WidgetId>>, expandingH: seq<bool>, expandingV: seq<bool>)
    ensures children == [Some(n), Some(w), Some(c), Some(e), Some(s)]
    ensures expandingH == [false, false, true, false, false]
    ensures expandingV == [false, false, true, false, false]
  {
    var b := new BorderState();
    assert b.SlotContainer(North) == b.north && b.SlotContainer(West) == b.west;
    assert b.SlotContainer(Center) == b.center && b.SlotContainer(East) == b.east;
    assert b.SlotContainer(South) == b.south;
    b.SetNorth(n);
    b.SetWest(w);
    b.SetCenter(c);
    b.SetEast(e);
    b.SetSouth(s);
    children := [b.north.child, b.west.child, b.center.child, b.east.child, b.south.child];
    expandingH := [b.north.expandHorizontally, b.west.expandHorizontally, b.center.expandHorizontally,
                   b.east.expandHorizontally, b.south.expandHorizontally];
    expandingV := [b.north.expandVertically, b.west.expandVertically, b.center.expandVertically,
                   b.east.expandVertically, b.south.expandVertically];
  }
}
