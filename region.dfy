/** Source positions and spans (the `roc_region` crate, which is not part of this model). */
module Regions {
  import opened Numeric

  datatype Position = Position(line: u32, col: u16)

  datatype Region = Region(startLine: u32, endLine: u32, startCol: u16, endCol: u16) {
    function Start(): Position { Position(startLine, startCol) }
    function End(): Position { Position(endLine, endCol) }
  }

  /** A value together with the span of source it came from. */
  datatype Located<+T> = Located(region: Region, value: T)

  /** `Region::span_across`. The body (start of `a`, end of `b`) stands in for the crate's
      definition; nothing proved in this model depends on it. */
  function SpanAcross(a: Region, b: Region): Region {
    Region(a.startLine, b.endLine, a.startCol, b.endCol)
  }

  /** `Region::across_all`: the span of a list of regions, folded left with `SpanAcross`
      (the zero region for no regions). A stand-in like `SpanAcross`. */
  function AcrossAll(regions: seq<Region>): Region
    decreases |regions|
  {
    if regions == [] then Region(0, 0, 0, 0)
    else if |regions| == 1 then regions[0]
    else AcrossAll([SpanAcross(regions[0], regions[1])] + regions[2..])
  }
}
