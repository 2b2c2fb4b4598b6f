/**
 * The image library the editor delegates to (PIL and the helpers `apply_filters`,
 * `apply_enhancements` and `generate_lasso_mask` of the `utils` module), seen only
 * through the calls simple.py makes. Images, masks, lasso outlines and enhancement
 * factors are opaque; the primitives are total function values handed to the model,
 * so every statement proved below holds whatever the library does.
 */
module ImageLib {
  import opened Wrappers

  /** A PIL image. */
  type Image
  /** The pixel mask `generate_lasso_mask` builds from a lasso outline. */
  type Mask
  /** The `lassoPoints` entry of a plot selection, as the plotting front end sends it. */
  type LassoPoints
  /** The value of the enhancement-factor slider. */
  type Factor

  /** `im.size`: width and height in pixels. */
  datatype Size = Size(width: nat, height: nat)

  /** Two coordinates in the order the plot reports them (`range['x']` or `range['y']`). */
  datatype Span = Span(first: int, second: int)

  /** The `range` entry of a rectangular plot selection, after conversion to integers. */
  datatype Range = Range(x: Span, y: Span)

  /**
   * The `selectedData` object of the interactive graph: only the two keys the editor
   * looks at. An empty object behaves like a missing one.
   */
  datatype SelectedData = SelectedData(lassoPoints: Option<LassoPoints>, range: Option<Range>)

  /** The zone an operation applies to: a pixel box `(left, upper, right, lower)` or a lasso mask. */
  datatype Zone =
    | Box(left: int, upper: int, right: int, lower: int)
    | LassoMask(mask: Mask)

  /** The `mode` argument of the primitives: 'lasso' or 'select'. */
  datatype Mode = LassoMode | SelectMode

  /** What an action asks for: a filter name, or the `{enhancement, enhancement_factor}` record. */
  datatype Operation =
    | FilterName(name: string)
    | EnhancementSpec(enhancement: string, enhancementFactor: Factor)

  /** The library calls the editor makes. */
  datatype Library = Library(
    size: Image -> Size,
    lassoMask: (Image, SelectedData) -> Mask,
    applyFilter: (Image, Zone, Operation, Mode) -> Image,
    applyEnhancement: (Image, Zone, string, Factor, Mode) -> Image)
}
