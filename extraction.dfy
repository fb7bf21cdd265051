/** Layout extraction: from a source deck, the JSON layout document (one
    record per text or picture shape, geometry in points) and a blank deck
    carrying one placeholder text box per kept shape at the same EMU
    geometry. */
module Extraction {
  import opened Wrappers
  import opened Units
  import opened Source
  import opened Interchange
  import opened Deck
  import opened Seqs

  const TextPlaceholder: string := "[Text Placeholder]"
  const ImagePlaceholder: string := "[Image Placeholder]"

  /** The JSON record of one shape: a text-frame shape is `"text"` with its
      frame text as `content` (even if it is also a picture); otherwise a
      picture is `"image"` without `content`; any other shape is dropped. */
  function ShapeRecord(s: SourceShape): (r: Option<ShapeJson>)
    ensures r.Some? <==> s.hasTextFrame || s.isPicture
    ensures r.Some? ==> r.value.name == s.name && r.value.position == PositionOf(s)
                        && r.value.size == SizeOf(s)
                        && r.value.textProperties.None? && r.value.imageMetadata.None?
    ensures s.hasTextFrame ==> r.value.kind == TextKind && r.value.content == Some(s.text)
    ensures !s.hasTextFrame && s.isPicture ==> r.value.kind == ImageKind && r.value.content.None?
  {
    if s.hasTextFrame then
      Some(ShapeJson(TextKind, s.name, PositionOf(s), SizeOf(s), Some(s.text), None, None))
    else if s.isPicture then
      Some(ShapeJson(ImageKind, s.name, PositionOf(s), SizeOf(s), None, None, None))
    else
      None
  }

  /** The placeholder text box the blank deck gets for one shape. */
  function Placeholder(s: SourceShape): (r: Option<DeckShape>)
    ensures r.Some? <==> s.hasTextFrame || s.isPicture
    ensures r.Some? ==> r.value == TextBox(EmuRect(s.left, s.top, s.width, s.height),
                                           if s.hasTextFrame then TextPlaceholder else ImagePlaceholder)
  {
    if s.hasTextFrame then Some(TextBox(EmuRect(s.left, s.top, s.width, s.height), TextPlaceholder))
    else if s.isPicture then Some(TextBox(EmuRect(s.left, s.top, s.width, s.height), ImagePlaceholder))
    else None
  }

  /** The records of a slide's shapes, as the shape loop appends them. */
  function SlideRecords(shapes: seq<SourceShape>): (r: seq<ShapeJson>)
    ensures |r| <= |shapes|
  {
    if shapes == [] then []
    else SlideRecords(shapes[..|shapes| - 1]) + ShapeRecord(shapes[|shapes| - 1]).ToSeq()
  }

  /** The placeholder text boxes of a slide's shapes, in the same order. */
  function SlidePlaceholders(shapes: seq<SourceShape>): (r: seq<DeckShape>)
    ensures |r| <= |shapes|
  {
    if shapes == [] then []
    else SlidePlaceholders(shapes[..|shapes| - 1]) + Placeholder(shapes[|shapes| - 1]).ToSeq()
  }

  /** The JSON layout document of a source deck. */
  function ExtractJson(prs: SourcePresentation): (r: PresentationJson)
    ensures r.slideWidthEmu == prs.slideWidth && r.slideHeightEmu == prs.slideHeight
    ensures |r.slides| == |prs.slides|
    ensures forall i :: 0 <= i < |r.slides| ==>
              r.slides[i].slideNumber == i + 1 && r.slides[i].shapes == SlideRecords(prs.slides[i].shapes)
  {
    PresentationJson(prs.slideWidth, prs.slideHeight,
      seq(|prs.slides|, i requires 0 <= i < |prs.slides| => SlideJson(i + 1, SlideRecords(prs.slides[i].shapes))))
  }

  /** The slides of the blank deck: exactly one per source slide. */
  function BlankSlides(prs: SourcePresentation): (r: seq<seq<DeckShape>>)
    ensures |r| == |prs.slides|
    ensures forall i :: 0 <= i < |r| ==> r[i] == SlidePlaceholders(prs.slides[i].shapes)
  {
    seq(|prs.slides|, i requires 0 <= i < |prs.slides| => SlidePlaceholders(prs.slides[i].shapes))
  }

  /** `extract_shapes_to_json` without the file I/O: returns the JSON document
      and the blank deck, which starts from a template holding
      `templateSlides`. */
  method ExtractShapesToJson(prs: SourcePresentation, templateSlides: seq<seq<DeckShape>>)
    returns (json: PresentationJson, blank: Presentation)
    ensures fresh(blank)
    ensures json == ExtractJson(prs)
    ensures blank.slideWidth == prs.slideWidth && blank.slideHeight == prs.slideHeight
    ensures blank.slides == BlankSlides(prs)
  {
    blank := new Presentation(templateSlides);
    blank.SetSlideSize(prs.slideWidth, prs.slideHeight);

    while |blank.slides| > 0
      invariant blank.slideWidth == prs.slideWidth && blank.slideHeight == prs.slideHeight
      decreases |blank.slides|
    {
      blank.DropFirstSlide();
    }

    var slidesJson: seq<SlideJson> := [];
    var slideNum := 0;
    while slideNum < |prs.slides|
      invariant 0 <= slideNum <= |prs.slides|
      invariant slidesJson == ExtractJson(prs).slides[..slideNum]
      invariant blank.slides == BlankSlides(prs)[..slideNum]
      invariant blank.slideWidth == prs.slideWidth && blank.slideHeight == prs.slideHeight
    {
      var shapes := ExtractSlide(prs.slides[slideNum], blank);
      slidesJson := slidesJson + [SlideJson(slideNum + 1, shapes)];
      TakeSnoc(ExtractJson(prs).slides, slideNum);
      TakeSnoc(BlankSlides(prs), slideNum);
      slideNum := slideNum + 1;
    }
    json := PresentationJson(prs.slideWidth, prs.slideHeight, slidesJson);
  }

  /** One more shape adds its record and its placeholder, if any. */
  lemma ShapesSnoc(shapes: seq<SourceShape>, j: nat)
    requires j < |shapes|
    ensures SlideRecords(shapes[..j + 1]) == SlideRecords(shapes[..j]) + ShapeRecord(shapes[j]).ToSeq()
    ensures SlidePlaceholders(shapes[..j + 1]) == SlidePlaceholders(shapes[..j]) + Placeholder(shapes[j]).ToSeq()
  {
    assert shapes[..j + 1][..j] == shapes[..j];
  }

  /** One pass of the slide loop: adds a blank slide to `blank`, then for each
      kept shape appends its record and a placeholder text box. */
  method ExtractSlide(slide: SourceSlide, blank: Presentation) returns (shapes: seq<ShapeJson>)
    modifies blank
    ensures shapes == SlideRecords(slide.shapes)
    ensures blank.slides == old(blank.slides) + [SlidePlaceholders(slide.shapes)]
    ensures blank.slideWidth == old(blank.slideWidth) && blank.slideHeight == old(blank.slideHeight)
  {
    shapes := [];
    blank.AddBlankSlide();
    var slideNum := |blank.slides| - 1;

    var j := 0;
    while j < |slide.shapes|
      invariant 0 <= j <= |slide.shapes|
      invariant shapes == SlideRecords(slide.shapes[..j])
      invariant blank.slides == old(blank.slides) + [SlidePlaceholders(slide.shapes[..j])]
      invariant slideNum == |old(blank.slides)|
      invariant blank.slideWidth == old(blank.slideWidth) && blank.slideHeight == old(blank.slideHeight)
    {
      var shape := slide.shapes[j];
      var position := Position(EmuToPoints(shape.left), EmuToPoints(shape.top));
      var size := Size(EmuToPoints(shape.width), EmuToPoints(shape.height));
      var rect := EmuRect(shape.left, shape.top, shape.width, shape.height);
      ShapesSnoc(slide.shapes, j);
      assert blank.slides[slideNum] == SlidePlaceholders(slide.shapes[..j]);
      if shape.hasTextFrame {
        blank.AddShape(slideNum, TextBox(rect, TextPlaceholder));
        assert Placeholder(shape).ToSeq() == [TextBox(rect, TextPlaceholder)];
        assert blank.slides == old(blank.slides) + [SlidePlaceholders(slide.shapes[..j + 1])];
        shapes := shapes + [ShapeJson(TextKind, shape.name, position, size, Some(shape.text), None, None)];
      } else if shape.isPicture {
        blank.AddShape(slideNum, TextBox(rect, ImagePlaceholder));
        assert Placeholder(shape).ToSeq() == [TextBox(rect, ImagePlaceholder)];
        assert blank.slides == old(blank.slides) + [SlidePlaceholders(slide.shapes[..j + 1])];
        shapes := shapes + [ShapeJson(ImageKind, shape.name, position, size, None, None, None)];
      } else {
        assert SlidePlaceholders(slide.shapes[..j + 1]) == SlidePlaceholders(slide.shapes[..j]);
      }
      j := j + 1;
    }
    assert slide.shapes[..j] == slide.shapes;
  }

  // ---- Properties of the extraction ----

  /** Records of concatenated shape lists concatenate: the records keep the
      source order of the shapes. */
  lemma {:induction false} SlideRecordsConcat(a: seq<SourceShape>, b: seq<SourceShape>)
    ensures SlideRecords(a + b) == SlideRecords(a) + SlideRecords(b)
  {
    if b == [] {
      assert a + b == a;
    } else {
      var n := |b| - 1;
      var t := ShapeRecord(b[n]).ToSeq();
      assert (a + b)[..|a + b| - 1] == a + b[..n];
      assert (a + b)[|a + b| - 1] == b[n];
      assert SlideRecords(a + b) == SlideRecords(a + b[..n]) + t;
      SlideRecordsConcat(a, b[..n]);
      assert SlideRecords(b) == SlideRecords(b[..n]) + t;
      AppendAssoc(SlideRecords(a), SlideRecords(b[..n]), t);
    }
  }

  /** A record is in a slide's list exactly when some shape of the slide
      produces it. */
  lemma {:induction false} SlideRecordsMembership(shapes: seq<SourceShape>, r: ShapeJson)
    ensures r in SlideRecords(shapes) <==> exists i :: 0 <= i < |shapes| && ShapeRecord(shapes[i]) == Some(r)
  {
    if shapes != [] {
      var n := |shapes| - 1;
      var pre := shapes[..n];
      var t := ShapeRecord(shapes[n]).ToSeq();
      SlideRecordsMembership(pre, r);
      assert SlideRecords(shapes) == SlideRecords(pre) + t;
      if r in SlideRecords(shapes) {
        if r in SlideRecords(pre) {
          var i :| 0 <= i < n && ShapeRecord(pre[i]) == Some(r);
          assert pre[i] == shapes[i];
        } else {
          assert ShapeRecord(shapes[n]) == Some(r);
        }
      }
      if exists i :: 0 <= i < |shapes| && ShapeRecord(shapes[i]) == Some(r) {
        var i :| 0 <= i < |shapes| && ShapeRecord(shapes[i]) == Some(r);
        if i < n {
          assert pre[i] == shapes[i];
        } else {
          assert r in t;
        }
      }
    }
  }

  /** A shape that has no text frame and is not a picture contributes to
      neither output: removing it changes nothing. */
  lemma DroppedShapeIsInvisible(a: seq<SourceShape>, s: SourceShape, b: seq<SourceShape>)
    requires !s.hasTextFrame && !s.isPicture
    ensures SlideRecords(a + [s] + b) == SlideRecords(a + b)
    ensures SlidePlaceholders(a + [s] + b) == SlidePlaceholders(a + b)
  {
    SlideRecordsConcat(a + [s], b);
    SlideRecordsConcat(a, b);
    SlidePlaceholdersConcat(a + [s], b);
    SlidePlaceholdersConcat(a, b);
    assert (a + [s])[..|a|] == a;
    assert SlideRecords(a + [s]) == SlideRecords(a);
    assert SlidePlaceholders(a + [s]) == SlidePlaceholders(a);
  }

  lemma {:induction false} SlidePlaceholdersConcat(a: seq<SourceShape>, b: seq<SourceShape>)
    ensures SlidePlaceholders(a + b) == SlidePlaceholders(a) + SlidePlaceholders(b)
  {
    if b == [] {
      assert a + b == a;
    } else {
      var n := |b| - 1;
      var t := Placeholder(b[n]).ToSeq();
      assert (a + b)[..|a + b| - 1] == a + b[..n];
      assert (a + b)[|a + b| - 1] == b[n];
      assert SlidePlaceholders(a + b) == SlidePlaceholders(a + b[..n]) + t;
      SlidePlaceholdersConcat(a, b[..n]);
      assert SlidePlaceholders(b) == SlidePlaceholders(b[..n]) + t;
      AppendAssoc(SlidePlaceholders(a), SlidePlaceholders(b[..n]), t);
    }
  }

  /** When every shape of a slide is a text frame or a picture, the slide has
      exactly one record per shape, the k-th for the k-th shape. */
  lemma {:induction false} AllKeptOneRecordEach(shapes: seq<SourceShape>)
    requires forall i :: 0 <= i < |shapes| ==> shapes[i].hasTextFrame || shapes[i].isPicture
    ensures |SlideRecords(shapes)| == |shapes|
    ensures forall k :: 0 <= k < |shapes| ==> Some(SlideRecords(shapes)[k]) == ShapeRecord(shapes[k])
  {
    if shapes != [] {
      var n := |shapes| - 1;
      AllKeptOneRecordEach(shapes[..n]);
    }
  }

  /** The placeholder a JSON record describes: a text box at the EMU
      geometry its points convert back to, saying text or image according to
      the record's type. */
  function RecordPlaceholder(rec: ShapeJson): DeckShape {
    TextBox(EmuRect(PointsToEmu(rec.position.xPt), PointsToEmu(rec.position.yPt),
                    PointsToEmu(rec.size.widthPt), PointsToEmu(rec.size.heightPt)),
            if rec.kind == TextKind then TextPlaceholder else ImagePlaceholder)
  }

  /** One shape: its placeholder is the one its record describes. */
  lemma PlaceholderOfRecord(s: SourceShape)
    ensures |Placeholder(s).ToSeq()| == |ShapeRecord(s).ToSeq()|
    ensures ShapeRecord(s).Some? ==> Placeholder(s).ToSeq() == [RecordPlaceholder(ShapeRecord(s).value)]
  {
    EmuRoundTrip(s.left);
    EmuRoundTrip(s.top);
    EmuRoundTrip(s.width);
    EmuRoundTrip(s.height);
  }

  /** The blank deck mirrors the JSON: the k-th placeholder of a slide is the
      one its k-th record describes. */
  lemma {:induction false} PlaceholdersMatchRecords(shapes: seq<SourceShape>)
    ensures |SlidePlaceholders(shapes)| == |SlideRecords(shapes)|
    ensures forall k :: 0 <= k < |SlideRecords(shapes)| ==>
              SlidePlaceholders(shapes)[k] == RecordPlaceholder(SlideRecords(shapes)[k])
  {
    if shapes != [] {
      var n := |shapes| - 1;
      var s := shapes[n];
      var ps, rs := SlidePlaceholders(shapes[..n]), SlideRecords(shapes[..n]);
      var p, r := Placeholder(s).ToSeq(), ShapeRecord(s).ToSeq();
      assert SlidePlaceholders(shapes) == ps + p;
      assert SlideRecords(shapes) == rs + r;
      PlaceholdersMatchRecords(shapes[..n]);
      PlaceholderOfRecord(s);
      forall k | 0 <= k < |rs + r|
        ensures (ps + p)[k] == RecordPlaceholder((rs + r)[k])
      {
        if k < |rs| {
          assert (ps + p)[k] == ps[k] && (rs + r)[k] == rs[k];
        } else {
          assert (ps + p)[k] == p[0] && (rs + r)[k] == r[0];
        }
      }
    }
  }
}
