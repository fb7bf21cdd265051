/** What the presentation reader exposes of a source deck: per slide, the
    ordered shapes with their name, EMU geometry, whether they carry a text
    frame, whether their shape type is PICTURE, the frame's text and, for
    pictures, the embedded image. */
module Source {
  import opened Units
  import opened Interchange

  datatype PictureImage = PictureImage(ext: string, contentType: string, blob: seq<bv8>)

  datatype SourceShape = SourceShape(
    name: string,
    left: int,
    top: int,
    width: int,
    height: int,
    hasTextFrame: bool,
    isPicture: bool,
    text: string,
    image: PictureImage)

  datatype SourceSlide = SourceSlide(shapes: seq<SourceShape>)

  datatype SourcePresentation = SourcePresentation(
    slideWidth: int,
    slideHeight: int,
    slides: seq<SourceSlide>)

  /** The shape's `left`/`top` in points. */
  function PositionOf(s: SourceShape): (p: Position)
    ensures p.xPt * EmuPerPoint == s.left as real && p.yPt * EmuPerPoint == s.top as real
  {
    Position(EmuToPoints(s.left), EmuToPoints(s.top))
  }

  /** The shape's `width`/`height` in points. */
  function SizeOf(s: SourceShape): (z: Size)
    ensures z.widthPt * EmuPerPoint == s.width as real && z.heightPt * EmuPerPoint == s.height as real
  {
    Size(EmuToPoints(s.width), EmuToPoints(s.height))
  }
}
