/** The dimension contract that every widget reports to its parent, and the
    small geometric records it is built from. */
module Dimensions {

  datatype Option<T> = None | Some(value: T)

  /** A width and a height in character cells (`CellSize`). */
  datatype Size = Size(width: int, height: int)

  /** A cell position or offset (`CellPoint`). */
  datatype Point = Point(x: int, y: int)

  /** A rectangle given by its origin and its extent. */
  datatype Rect = Rect(x: int, y: int, width: int, height: int)

  /** `InternalWidgetDimensions`: what a widget wants and tolerates. */
  datatype Dims = Dims(
    min: Size,
    preferred: Size,
    max: Option<Size>,
    alignSizeTo: Size,
    horizontalSpacerCount: nat,
    verticalSpacerCount: nat)

  /** `InternalWidgetDimensions::zero()`: everything zero, no maximum. */
  function Zero(): Dims {
    Dims(Size(0, 0), Size(0, 0), None, Size(0, 0), 0, 0)
  }

  /** The largest value of a Rust `usize`. */
  const USIZE_MAX: nat := 0x1_0000_0000_0000_0000 - 1

  /** The largest value of a Rust `isize`. */
  const ISIZE_MAX: nat := 0x7FFF_FFFF_FFFF_FFFF

  /** Abstract identity of a child widget held by a container (an `AnyWidget` handle). */
  type WidgetId = nat

  /** What a child reports when asked for its dimensions at a given width. */
  type Estimator = (WidgetId, int) -> Dims
}
