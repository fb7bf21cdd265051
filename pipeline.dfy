/** The three presentation scripts run one after the other on the same
    source deck: the layout extraction, the image merge, and the rebuild
    from the merged document. */
module Pipeline {
  import opened Wrappers
  import opened Units
  import opened Source
  import opened Interchange
  import opened Deck
  import opened Extraction
  import opened ImageMerge
  import opened Rebuild
  import opened Seqs

  function RectOf(s: SourceShape): EmuRect {
    EmuRect(s.left, s.top, s.width, s.height)
  }

  /** The text boxes a source slide ends up with: one per text-frame shape,
      at the shape's own EMU geometry, holding the frame's text. */
  function SourceTextBoxes(shapes: seq<SourceShape>): (r: seq<DeckShape>)
    ensures |r| <= |shapes|
    ensures forall k :: 0 <= k < |r| ==> r[k].TextBox?
  {
    if shapes == [] then []
    else
      var s := shapes[|shapes| - 1];
      SourceTextBoxes(shapes[..|shapes| - 1]) + (if s.hasTextFrame then [TextBox(RectOf(s), s.text)] else [])
  }

  /** The pictures a source slide ends up with: one per picture whose bytes
      were saved under the generated name and whose file the rebuild finds,
      at the shape's own EMU geometry. */
  function SourcePictures(slideIndex: nat, shapes: seq<SourceShape>, io: (nat, nat) -> ImageIo,
                          fileExists: string -> bool): (r: seq<DeckShape>)
    ensures |r| <= |shapes|
    ensures forall k :: 0 <= k < |r| ==> r[k].Picture? && fileExists(r[k].file)
  {
    if shapes == [] then []
    else
      var n := |shapes| - 1;
      var s := shapes[n];
      SourcePictures(slideIndex, shapes[..n], io, fileExists)
      + (if PictureRecord(slideIndex, n, s, io).Some?
            && fileExists(ImageFilename(slideIndex, io(slideIndex, n).uuidHex, s.image.ext))
         then [Picture(ImageFilename(slideIndex, io(slideIndex, n).uuidHex, s.image.ext), RectOf(s))]
         else [])
  }

  /** The merged document the image merge writes for a source deck. */
  function MergedJson(src: SourcePresentation, io: (nat, nat) -> ImageIo): PresentationJson {
    var js := ExtractJson(src);
    js.(slides := MergeSlides(js.slides, src.slides, io))
  }

  /** The rebuild reads back an extracted record's geometry exactly. */
  lemma RecordRect(s: SourceShape, r: ShapeJson)
    requires r.position == PositionOf(s) && r.size == SizeOf(s)
    ensures ShapeRect(r) == RectOf(s)
  {
    EmuRoundTrip(s.left);
    EmuRoundTrip(s.top);
    EmuRoundTrip(s.width);
    EmuRoundTrip(s.height);
  }

  /** One source shape's record, with image records dropped, rebuilds to
      the shape's text box when it has a text frame and to nothing
      otherwise. */
  lemma TextRecordOfShape(s: SourceShape, fileExists: string -> bool)
    ensures RebuildShapes(WithoutImages(ShapeRecord(s).ToSeq()), fileExists)
              == Success(if s.hasTextFrame then [TextBox(RectOf(s), s.text)] else [])
  {
    if s.hasTextFrame || s.isPicture {
      var r := ShapeRecord(s).value;
      assert ShapeRecord(s).ToSeq() == [r];
      assert [r][..0] == [];
      if s.hasTextFrame {
        assert WithoutImages([r]) == [r];
        RecordRect(s, r);
        assert TextOf(r) == s.text;
        assert RebuildShape(r, fileExists) == Success([TextBox(RectOf(s), s.text)]);
        assert RebuildShapes([r], fileExists) == Combine(Success([]), RebuildShape(r, fileExists));
        AppendEmpty([TextBox(RectOf(s), s.text)]);
      } else {
        assert WithoutImages([r]) == [];
      }
    }
  }

  /** The text records left after the merge rebuild to the source's text
      boxes, with the same text and geometry. */
  lemma {:induction false} TextRecordsRebuild(shapes: seq<SourceShape>, fileExists: string -> bool)
    ensures RebuildShapes(WithoutImages(SlideRecords(shapes)), fileExists) == Success(SourceTextBoxes(shapes))
  {
    if shapes != [] {
      var n := |shapes| - 1;
      var s := shapes[n];
      var init := SlideRecords(shapes[..n]);
      var last := ShapeRecord(s).ToSeq();
      assert SlideRecords(shapes) == init + last;
      TextRecordsRebuild(shapes[..n], fileExists);
      WithoutImagesConcat(init, last);
      RebuildShapesConcat(WithoutImages(init), WithoutImages(last), fileExists);
      TextRecordOfShape(s, fileExists);
    }
  }

  /** The image records the merge appends rebuild to the source's saved
      pictures whose files are present, in shape order. */
  lemma {:induction false} ImageRecordsRebuild(slideIndex: nat, shapes: seq<SourceShape>, io: (nat, nat) -> ImageIo,
                                               fileExists: string -> bool)
    ensures RebuildShapes(NewImages(slideIndex, shapes, io), fileExists) == Success(SourcePictures(slideIndex, shapes, io, fileExists))
  {
    if shapes != [] {
      var n := |shapes| - 1;
      var s := shapes[n];
      var last := PictureRecord(slideIndex, n, s, io).ToSeq();
      ImageRecordsRebuild(slideIndex, shapes[..n], io, fileExists);
      RebuildShapesConcat(NewImages(slideIndex, shapes[..n], io), last, fileExists);
      var prefix := SourcePictures(slideIndex, shapes[..n], io, fileExists);
      if last != [] {
        var r := last[0];
        assert last == [r] && last[..0] == [];
        RecordRect(s, r);
      } else {
        CombineUnit(RebuildShapes(NewImages(slideIndex, shapes[..n], io), fileExists));
        assert prefix + [] == prefix;
      }
    }
  }

  /** Each slide of the merged document rebuilds to the source slide's text
      boxes followed by its present pictures. */
  lemma MergedSlideRebuilds(src: SourcePresentation, io: (nat, nat) -> ImageIo, fileExists: string -> bool, i: nat)
    requires i < |src.slides|
    ensures RebuildShapes(MergedJson(src, io).slides[i].shapes, fileExists)
              == Success(SourceTextBoxes(src.slides[i].shapes) + SourcePictures(i, src.slides[i].shapes, io, fileExists))
  {
    var shapes := src.slides[i].shapes;
    assert ExtractJson(src).slides[i].shapes == SlideRecords(shapes);
    assert MergedJson(src, io).slides[i].shapes == WithoutImages(SlideRecords(shapes)) + NewImages(i, shapes, io);
    RebuildShapesConcat(WithoutImages(SlideRecords(shapes)), NewImages(i, shapes, io), fileExists);
    TextRecordsRebuild(shapes, fileExists);
    ImageRecordsRebuild(i, shapes, io, fileExists);
  }

  /** Extracting, merging and rebuilding never fails, keeps the slide size
      and the slide count, and gives every slide its source text boxes at
      their exact geometry followed by the pictures that were saved and found
      again. */
  lemma RoundTrip(src: SourcePresentation, io: (nat, nat) -> ImageIo, fileExists: string -> bool)
    ensures BuildDeck(MergedJson(src, io), fileExists).Success?
    ensures BuildDeck(MergedJson(src, io), fileExists).value.width == src.slideWidth
    ensures BuildDeck(MergedJson(src, io), fileExists).value.height == src.slideHeight
    ensures |BuildDeck(MergedJson(src, io), fileExists).value.slides| == |src.slides|
    ensures forall i :: 0 <= i < |src.slides| ==>
              BuildDeck(MergedJson(src, io), fileExists).value.slides[i]
                == SourceTextBoxes(src.slides[i].shapes) + SourcePictures(i, src.slides[i].shapes, io, fileExists)
  {
    var data := MergedJson(src, io);
    var out := seq(|src.slides|, i requires 0 <= i < |src.slides| =>
                     SourceTextBoxes(src.slides[i].shapes) + SourcePictures(i, src.slides[i].shapes, io, fileExists));
    forall i | 0 <= i < |src.slides|
      ensures RebuildShapes(data.slides[i].shapes, fileExists) == Success(out[i])
    {
      MergedSlideRebuilds(src, io, fileExists, i);
    }
    RebuildSlidesOf(data.slides, fileExists, out);
    EmuRoundTrip(src.slideWidth);
    EmuRoundTrip(src.slideHeight);
  }
}
