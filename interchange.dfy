/** The JSON interchange document that the three presentation scripts read
    and write. Geometry is in points; the two top-level dimensions stay in
    EMU. An absent JSON key is `None`. */
module Interchange {
  import opened Wrappers

  /** `"position": {"x_pt": …, "y_pt": …}` */
  datatype Position = Position(xPt: real, yPt: real)

  /** `"size": {"width_pt": …, "height_pt": …}` */
  datatype Size = Size(widthPt: real, heightPt: real)

  /** `"image_metadata"`; `saved_path` and `thumbnail_base64` are opaque text. */
  datatype ImageMetadata = ImageMetadata(
    contentType: string,
    ext: string,
    filename: string,
    savedPath: string,
    thumbnailBase64: string)

  /** A run of `text_properties.paragraphs[*].runs`; only its `"text"` is read. */
  datatype RunJson = RunJson(text: Option<string>)

  /** A paragraph of `text_properties.paragraphs`; `"runs"` may be absent. */
  datatype ParagraphJson = ParagraphJson(runs: Option<seq<RunJson>>)

  /** `"text_properties"`: `paragraphs` is `None` when the object is empty or
      has no `"paragraphs"` key (both are treated alike by the rebuild). */
  datatype TextProperties = TextProperties(paragraphs: Option<seq<ParagraphJson>>)

  /** One entry of a slide's `"shapes"` list; `kind` is its `"type"` string. */
  datatype ShapeJson = ShapeJson(
    kind: string,
    name: string,
    position: Position,
    size: Size,
    content: Option<string>,
    textProperties: Option<TextProperties>,
    imageMetadata: Option<ImageMetadata>)

  /** One entry of `"slides"`. */
  datatype SlideJson = SlideJson(slideNumber: int, shapes: seq<ShapeJson>)

  /** The whole document. */
  datatype PresentationJson = PresentationJson(
    slideWidthEmu: int,
    slideHeightEmu: int,
    slides: seq<SlideJson>)

  const TextKind: string := "text"
  const ImageKind: string := "image"
}
