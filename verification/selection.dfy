/**
 * Selection-zone geometry of `apply_actions_on_image`: which zone an action applies to.
 * The plot's y axis points up and the image's rows go down, so a rectangle selected
 * on the plot is turned into a pixel box by flipping its y coordinates against the
 * image height.
 */
module Selection {
  import opened Wrappers
  import opened ImageLib

  datatype ZoneSelection = ZoneSelection(zone: Zone, mode: Mode)

  predicate HasLasso(selectedData: Option<SelectedData>) {
    selectedData.Some? && selectedData.value.lassoPoints.Some?
  }

  predicate HasRange(selectedData: Option<SelectedData>) {
    selectedData.Some? && selectedData.value.range.Some?
  }

  /** Both spans of the range run from the smaller to the larger coordinate. */
  predicate Ascending(range: Range) {
    range.x.first <= range.x.second && range.y.first <= range.y.second
  }

  /** The range lies inside the plotted image, whose plot coordinates run over [0, width] x [0, height]. */
  predicate RangeWithin(range: Range, size: Size) {
    && 0 <= range.x.first <= range.x.second <= size.width
    && 0 <= range.y.first <= range.y.second <= size.height
  }

  /** The zone is a well-ordered pixel box inside an image of the given size. */
  predicate BoxWithin(zone: Zone, size: Size) {
    && zone.Box?
    && 0 <= zone.left <= zone.right <= size.width
    && 0 <= zone.upper <= zone.lower <= size.height
  }

  /** The zone is the box of the whole image. */
  predicate WholeImage(zone: Zone, size: Size) {
    zone == Box(0, 0, size.width, size.height)
  }

  /** Pixel (px, py), row py counted from the top, lies in the box, edges included. */
  predicate InBox(zone: Zone, px: int, py: int)
    requires zone.Box?
  {
    zone.left <= px <= zone.right && zone.upper <= py <= zone.lower
  }

  /** Plot point (x, y), y counted from the bottom, lies in the range, edges included. */
  predicate InRange(range: Range, x: int, y: int) {
    range.x.first <= x <= range.x.second && range.y.first <= y <= range.y.second
  }

  /** Reads a pixel box back as the plot range it came from, unflipping the y axis. */
  function PlotRangeOf(zone: Zone, height: int): Range
    requires zone.Box?
  {
    Range(Span(zone.left, zone.right), Span(height - zone.lower, height - zone.upper))
  }

  /**
   * The box of a rectangular selection: x taken as is, y flipped against the image height,
   * so the box's upper edge comes from the range's second y and its lower edge from the first.
   */
  function RectangleZone(range: Range, size: Size): (zone: Zone)
    ensures zone.Box?
    ensures PlotRangeOf(zone, size.height) == range
    ensures Ascending(range) ==> zone.left <= zone.right && zone.upper <= zone.lower
    ensures RangeWithin(range, size) ==> BoxWithin(zone, size)
  {
    var lower, upper := range.y.first, range.y.second;
    var left, right := range.x.first, range.x.second;
    Box(left, size.height - upper, right, size.height - lower)
  }

  /**
   * The zone and mode of one action on image `im`: a lasso selection takes priority,
   * then a rectangular range, and with neither (or no selection at all) the whole image.
   */
  function SelectionZone(lib: Library, im: Image, selectedData: Option<SelectedData>): (s: ZoneSelection)
    ensures s.zone.LassoMask? <==> s.mode == LassoMode
    ensures s.zone.LassoMask? <==> HasLasso(selectedData)
    ensures HasLasso(selectedData) ==> s.zone.mask == lib.lassoMask(im, selectedData.value)
    ensures !HasLasso(selectedData) && HasRange(selectedData) ==>
              s.zone.Box? && PlotRangeOf(s.zone, lib.size(im).height) == selectedData.value.range.value
    ensures !HasLasso(selectedData) && !HasRange(selectedData) ==> WholeImage(s.zone, lib.size(im))
  {
    if HasLasso(selectedData) then
      ZoneSelection(LassoMask(lib.lassoMask(im, selectedData.value)), LassoMode)
    else if HasRange(selectedData) then
      ZoneSelection(RectangleZone(selectedData.value.range.value, lib.size(im)), SelectMode)
    else
      var size := lib.size(im);
      ZoneSelection(Box(0, 0, size.width, size.height), SelectMode)
  }

  /** The box of a rectangular selection holds exactly the pixels whose flipped position the user selected. */
  lemma RectangleZoneCoversSelection(range: Range, size: Size, px: int, py: int)
    ensures InBox(RectangleZone(range, size), px, py) <==> InRange(range, px, size.height - py)
  {
  }

  /** Two rectangular selections give the same box on the same image only if they are the same selection. */
  lemma RectangleZoneInjective(r1: Range, r2: Range, size: Size)
    requires RectangleZone(r1, size) == RectangleZone(r2, size)
    ensures r1 == r2
  {
    assert PlotRangeOf(RectangleZone(r1, size), size.height) == r1;
  }
}
