/** Rebuilding a presentation from the JSON document: one blank slide per
    JSON slide, a text box per text record and a picture per image record
    whose file is present in the image directory. */
module Rebuild {
  import opened Wrappers
  import opened Text
  import opened Units
  import opened Interchange
  import opened Deck
  import opened Seqs

  // ---- Text of a record ----

  /** The texts of a paragraph's runs run together; a run without `"text"`
      contributes nothing. */
  function RunsText(runs: seq<RunJson>): (r: string)
    ensures (forall k :: 0 <= k < |runs| ==> runs[k].text.None?) ==> r == ""
  {
    if runs == [] then "" else RunsText(runs[..|runs| - 1]) + runs[|runs| - 1].text.GetOr("")
  }

  lemma {:induction false} RunsTextConcat(a: seq<RunJson>, b: seq<RunJson>)
    ensures RunsText(a + b) == RunsText(a) + RunsText(b)
  {
    if b == [] {
      assert a + b == a;
    } else {
      var n := |b| - 1;
      var t := b[n].text.GetOr("");
      assert (a + b)[..|a + b| - 1] == a + b[..n];
      assert (a + b)[|a + b| - 1] == b[n];
      assert RunsText(a + b) == RunsText(a + b[..n]) + t;
      RunsTextConcat(a, b[..n]);
      assert RunsText(b) == RunsText(b[..n]) + t;
      AppendAssoc(RunsText(a), RunsText(b[..n]), t);
    }
  }

  /** A paragraph's text; a paragraph without `"runs"` is empty. */
  function ParagraphText(p: ParagraphJson): string {
    RunsText(p.runs.GetOr([]))
  }

  function ParagraphTexts(ps: seq<ParagraphJson>): (r: seq<string>)
    ensures |r| == |ps|
    ensures forall k :: 0 <= k < |ps| ==> r[k] == ParagraphText(ps[k])
  {
    seq(|ps|, k requires 0 <= k < |ps| => ParagraphText(ps[k]))
  }

  /** Splitting the newline join of paragraph texts gives them back, when
      there is one at least and none holds a newline. */
  lemma ParagraphsSplitBack(ps: seq<ParagraphJson>)
    ensures |ps| >= 1 && (forall k :: 0 <= k < |ps| ==> '\n' !in ParagraphText(ps[k])) ==>
              Split(Join(ParagraphTexts(ps), "\n"), '\n') == ParagraphTexts(ps)
  {
    if |ps| >= 1 && forall k :: 0 <= k < |ps| ==> '\n' !in ParagraphText(ps[k]) {
      SplitJoin(ParagraphTexts(ps), '\n');
    }
  }

  /** No content (or empty content): the case where the paragraphs are read. */
  predicate NoContent(shape: ShapeJson) {
    shape.content.None? || shape.content == Some("")
  }

  /** No `"text_properties"`, none with `"paragraphs"`, or an empty list of
      them. */
  predicate NoParagraphs(shape: ShapeJson) {
    shape.textProperties.None? || shape.textProperties.value.paragraphs.None?
    || shape.textProperties.value.paragraphs == Some([])
  }

  /** `get_text_from_shape`: a non-empty `"content"` wins; otherwise the
      paragraph texts, each its runs run together, joined by newlines, so
      that splitting at newlines gives them back; without paragraphs it is
      empty. */
  function TextOf(shape: ShapeJson): (r: string)
    ensures !NoContent(shape) ==> r == shape.content.value
    ensures NoContent(shape) && NoParagraphs(shape) ==> r == ""
    ensures NoContent(shape) && shape.textProperties.Some? && shape.textProperties.value.paragraphs.Some? ==>
              var ps := shape.textProperties.value.paragraphs.value;
              |ps| >= 1 && (forall k :: 0 <= k < |ps| ==> '\n' !in ParagraphText(ps[k])) ==>
                Split(r, '\n') == ParagraphTexts(ps)
  {
    if shape.content.Some? && shape.content.value != [] then shape.content.value
    else if shape.textProperties.Some? && shape.textProperties.value.paragraphs.Some? then
      ParagraphsSplitBack(shape.textProperties.value.paragraphs.value);
      Join(ParagraphTexts(shape.textProperties.value.paragraphs.value), "\n")
    else ""
  }

  /** A record with non-empty content yields that content, whatever its text
      properties say. */
  lemma TextOfContentWins(shape: ShapeJson, tp: Option<TextProperties>)
    requires shape.content.Some? && shape.content.value != []
    ensures TextOf(shape.(textProperties := tp)) == shape.content.value
  {
  }

  // ---- Rebuilding shapes and slides ----

  /** The `KeyError` raised by `shape["image_metadata"]` on an image record
      without metadata; it aborts the whole rebuild before anything is saved. */
  datatype BuildError = MissingImageMetadata

  /** The EMU rectangle of a record; each side lies within one EMU of the
      exact value, towards zero. */
  function ShapeRect(shape: ShapeJson): (r: EmuRect)
    ensures -1.0 < r.left as real - shape.position.xPt * EmuPerPoint < 1.0
    ensures -1.0 < r.top as real - shape.position.yPt * EmuPerPoint < 1.0
    ensures -1.0 < r.width as real - shape.size.widthPt * EmuPerPoint < 1.0
    ensures -1.0 < r.height as real - shape.size.heightPt * EmuPerPoint < 1.0
  {
    EmuRect(PointsToEmu(shape.position.xPt), PointsToEmu(shape.position.yPt),
            PointsToEmu(shape.size.widthPt), PointsToEmu(shape.size.heightPt))
  }

  /** What one record adds to its slide: at most one shape, or the error. */
  function RebuildShape(shape: ShapeJson, fileExists: string -> bool): (r: Result<seq<DeckShape>, BuildError>)
    ensures r.Failure? <==> shape.kind == ImageKind && shape.imageMetadata.None?
    ensures r.Success? ==> |r.value| <= 1
    ensures r == Success([]) <==>
              shape.kind != TextKind &&
              (shape.kind != ImageKind || (shape.imageMetadata.Some? && !fileExists(shape.imageMetadata.value.filename)))
    ensures shape.kind == TextKind ==> r.Success? && r.value[0].TextBox? && r.value[0].text == TextOf(shape)
    ensures r.Success? && r.value != [] ==> r.value[0].rect == ShapeRect(shape)
    ensures shape.kind == ImageKind && shape.imageMetadata.Some? && fileExists(shape.imageMetadata.value.filename) ==>
              r == Success([Picture(shape.imageMetadata.value.filename, ShapeRect(shape))])
    ensures r.Success? && r.value != [] && r.value[0].Picture? ==>
              shape.kind == ImageKind && r.value[0].file == shape.imageMetadata.value.filename && fileExists(r.value[0].file)
  {
    if shape.kind == TextKind then
      Success([TextBox(ShapeRect(shape), TextOf(shape))])
    else if shape.kind == ImageKind then
      if shape.imageMetadata.None? then Failure(MissingImageMetadata)
      else if fileExists(shape.imageMetadata.value.filename) then
        Success([Picture(shape.imageMetadata.value.filename, ShapeRect(shape))])
      else Success([])
    else Success([])
  }

  /** Two steps of the rebuild in sequence: the first failure wins, and
      otherwise the shapes of both, in order. */
  function Combine<T>(x: Result<seq<T>, BuildError>, y: Result<seq<T>, BuildError>): (r: Result<seq<T>, BuildError>)
    ensures r.Success? <==> x.Success? && y.Success?
    ensures r.Success? ==> r.value == x.value + y.value
  {
    if x.Failure? then x else if y.Failure? then y else Success(x.value + y.value)
  }

  lemma CombineAssociative<T>(x: Result<seq<T>, BuildError>, y: Result<seq<T>, BuildError>, z: Result<seq<T>, BuildError>)
    ensures Combine(Combine(x, y), z) == Combine(x, Combine(y, z))
  {
    if x.Success? && y.Success? && z.Success? {
      assert (x.value + y.value) + z.value == x.value + (y.value + z.value);
    }
  }

  lemma CombineUnit<T>(x: Result<seq<T>, BuildError>)
    ensures Combine(x, Success([])) == x
  {
    if x.Success? {
      assert x.value + [] == x.value;
    }
  }

  /** The shapes one JSON slide receives, in record order, or the error of
      its first image record without metadata. */
  function RebuildShapes(shapes: seq<ShapeJson>, fileExists: string -> bool): (r: Result<seq<DeckShape>, BuildError>)
    ensures r.Success? ==> |r.value| <= |shapes|
  {
    if shapes == [] then Success([])
    else
      var n := |shapes| - 1;
      Combine(RebuildShapes(shapes[..n], fileExists), RebuildShape(shapes[n], fileExists))
  }

  /** The shapes of every JSON slide, one list per slide. */
  function RebuildSlides(slides: seq<SlideJson>, fileExists: string -> bool): (r: Result<seq<seq<DeckShape>>, BuildError>)
    ensures r.Success? ==> |r.value| == |slides|
  {
    if slides == [] then Success([])
    else
      var n := |slides| - 1;
      Combine(RebuildSlides(slides[..n], fileExists), AsSlide(RebuildShapes(slides[n].shapes, fileExists)))
  }

  /** One rebuilt slide as a list of one slide. */
  function AsSlide(x: Result<seq<DeckShape>, BuildError>): (r: Result<seq<seq<DeckShape>>, BuildError>)
    ensures r.Success? <==> x.Success?
    ensures r.Success? ==> r.value == [x.value]
  {
    if x.Failure? then Failure(x.error) else Success([x.value])
  }

  /** The deck the rebuild saves: its size and the slides it added. */
  datatype RebuiltDeck = RebuiltDeck(width: int, height: int, slides: seq<seq<DeckShape>>)

  /** `build_pptx_from_json` on a parsed document; `fileExists` says which file
      names are present in the image directory. In exact arithmetic the division
      by 12700 and the truncating multiplication cancel, so the deck has the
      document's size, and one slide per JSON slide. */
  function BuildDeck(data: PresentationJson, fileExists: string -> bool): (r: Result<RebuiltDeck, BuildError>)
    ensures r.Success? <==> RebuildSlides(data.slides, fileExists).Success?
    ensures r.Success? ==> r.value.width == data.slideWidthEmu && r.value.height == data.slideHeightEmu
    ensures r.Success? ==> r.value.slides == RebuildSlides(data.slides, fileExists).value
    ensures r.Success? ==> |r.value.slides| == |data.slides|
  {
    match RebuildSlides(data.slides, fileExists)
    case Failure(e) => Failure(e)
    case Success(slides) =>
      EmuRoundTrip(data.slideWidthEmu);
      EmuRoundTrip(data.slideHeightEmu);
      Success(RebuiltDeck(PointsToEmu(EmuToPoints(data.slideWidthEmu)),
                          PointsToEmu(EmuToPoints(data.slideHeightEmu)), slides))
  }

  // ---- The rebuild loop ----

  /** The script's loop: sets the size, then adds a blank slide per JSON
      slide and fills it. On an image record without metadata it stops with
      the error, and nothing is saved. */
  method BuildPptxFromJson(data: PresentationJson, fileExists: string -> bool, templateSlides: seq<seq<DeckShape>>)
    returns (prs: Presentation, err: Option<BuildError>)
    ensures fresh(prs)
    ensures err.None? <==> BuildDeck(data, fileExists).Success?
    ensures err.None? ==>
              prs.slideWidth == BuildDeck(data, fileExists).value.width &&
              prs.slideHeight == BuildDeck(data, fileExists).value.height &&
              prs.slides == templateSlides + BuildDeck(data, fileExists).value.slides
  {
    prs := new Presentation(templateSlides);
    prs.SetSlideSize(PointsToEmu(EmuToPoints(data.slideWidthEmu)), PointsToEmu(EmuToPoints(data.slideHeightEmu)));
    var i := 0;
    assert data.slides[..0] == [];
    while i < |data.slides|
      invariant 0 <= i <= |data.slides|
      invariant RebuildSlides(data.slides[..i], fileExists).Success?
      invariant prs.slides == templateSlides + RebuildSlides(data.slides[..i], fileExists).value
      invariant prs.slideWidth == PointsToEmu(EmuToPoints(data.slideWidthEmu))
      invariant prs.slideHeight == PointsToEmu(EmuToPoints(data.slideHeightEmu))
    {
      TakeSnoc(data.slides, i);
      ghost var done := prs.slides;
      prs.AddBlankSlide();
      var slideErr := BuildSlide(prs, data.slides[i].shapes, fileExists);
      if slideErr.Some? {
        err := slideErr;
        RebuildSlidesFailsAt(data.slides, i, fileExists);
        return;
      }
      ghost var added := RebuildShapes(data.slides[i].shapes, fileExists).value;
      ghost var prev := RebuildSlides(data.slides[..i], fileExists).value;
      assert RebuildSlides(data.slides[..i + 1], fileExists) == Combine(Success(prev), Success([added]));
      assert prs.slides == done + [[] + added];
      AppendEmpty(added);
      AppendAssoc(templateSlides, prev, [added]);
      i := i + 1;
    }
    TakeAll(data.slides);
    err := None;
  }

  /** The inner loop over one JSON slide's records, adding them to the last
      slide of the deck. */
  method BuildSlide(prs: Presentation, shapes: seq<ShapeJson>, fileExists: string -> bool) returns (err: Option<BuildError>)
    requires |prs.slides| > 0
    modifies prs
    ensures err.None? <==> RebuildShapes(shapes, fileExists).Success?
    ensures err.None? ==>
              prs.slides == old(prs.slides)[|old(prs.slides)| - 1 := old(prs.slides)[|old(prs.slides)| - 1] + RebuildShapes(shapes, fileExists).value]
    ensures prs.slideWidth == old(prs.slideWidth) && prs.slideHeight == old(prs.slideHeight)
  {
    var last := |prs.slides| - 1;
    ghost var before := prs.slides;
    var j := 0;
    assert shapes[..0] == [];
    assert before[last] + [] == before[last];
    while j < |shapes|
      invariant 0 <= j <= |shapes|
      invariant |prs.slides| == |before|
      invariant RebuildShapes(shapes[..j], fileExists).Success?
      invariant prs.slides == before[last := before[last] + RebuildShapes(shapes[..j], fileExists).value]
      invariant prs.slideWidth == old(prs.slideWidth) && prs.slideHeight == old(prs.slideHeight)
    {
      var shape := shapes[j];
      TakeSnoc(shapes, j);
      ghost var prefix := RebuildShapes(shapes[..j], fileExists).value;
      assert RebuildShapes(shapes[..j + 1], fileExists) == Combine(Success(prefix), RebuildShape(shape, fileExists));
      if shape.kind == TextKind {
        var box := TextBox(ShapeRect(shape), TextOf(shape));
        prs.AddShape(last, box);
        AppendAssoc(before[last], prefix, [box]);
      } else if shape.kind == ImageKind {
        if shape.imageMetadata.None? {
          RebuildShapesFailsAt(shapes, j, fileExists);
          return Some(MissingImageMetadata);
        }
        var fileName := shape.imageMetadata.value.filename;
        if fileExists(fileName) {
          var picture := Picture(fileName, ShapeRect(shape));
          prs.AddShape(last, picture);
          AppendAssoc(before[last], prefix, [picture]);
        } else {
          AppendEmpty(prefix);
        }
      } else {
        AppendEmpty(prefix);
      }
      j := j + 1;
    }
    TakeAll(shapes);
    return None;
  }

  // ---- Properties of the rebuild ----

  lemma {:induction false} RebuildShapesConcat(a: seq<ShapeJson>, b: seq<ShapeJson>, fileExists: string -> bool)
    ensures RebuildShapes(a + b, fileExists) == Combine(RebuildShapes(a, fileExists), RebuildShapes(b, fileExists))
  {
    if b == [] {
      assert a + b == a;
      var x := RebuildShapes(a, fileExists);
      assert x.Success? ==> x.value + [] == x.value;
    } else {
      var n := |b| - 1;
      assert (a + b)[..|a + b| - 1] == a + b[..n];
      assert (a + b)[|a + b| - 1] == b[n];
      RebuildShapesConcat(a, b[..n], fileExists);
      CombineAssociative(RebuildShapes(a, fileExists), RebuildShapes(b[..n], fileExists), RebuildShape(b[n], fileExists));
    }
  }

  /** A failing record makes the whole slide fail, whatever follows it. */
  lemma {:induction false} RebuildShapesFailsAt(shapes: seq<ShapeJson>, j: nat, fileExists: string -> bool)
    requires j < |shapes|
    requires RebuildShapes(shapes[..j], fileExists).Success?
    requires RebuildShape(shapes[j], fileExists).Failure?
    ensures RebuildShapes(shapes, fileExists).Failure?
  {
    var p := shapes[..j + 1];
    assert p[..j] == shapes[..j] && p[j] == shapes[j];
    assert RebuildShapes(p, fileExists).Failure?;
    assert p + shapes[j + 1..] == shapes;
    RebuildShapesConcat(p, shapes[j + 1..], fileExists);
  }

  lemma {:induction false} RebuildSlidesConcat(a: seq<SlideJson>, b: seq<SlideJson>, fileExists: string -> bool)
    ensures RebuildSlides(a + b, fileExists) == Combine(RebuildSlides(a, fileExists), RebuildSlides(b, fileExists))
  {
    if b == [] {
      assert a + b == a;
      var x := RebuildSlides(a, fileExists);
      assert x.Success? ==> x.value + [] == x.value;
    } else {
      var n := |b| - 1;
      assert (a + b)[..|a + b| - 1] == a + b[..n];
      assert (a + b)[|a + b| - 1] == b[n];
      RebuildSlidesConcat(a, b[..n], fileExists);
      CombineAssociative(RebuildSlides(a, fileExists), RebuildSlides(b[..n], fileExists),
                         AsSlide(RebuildShapes(b[n].shapes, fileExists)));
    }
  }

  /** A failing slide makes the whole rebuild fail, whatever follows it. */
  lemma {:induction false} RebuildSlidesFailsAt(slides: seq<SlideJson>, i: nat, fileExists: string -> bool)
    requires i < |slides|
    requires RebuildSlides(slides[..i], fileExists).Success?
    requires RebuildShapes(slides[i].shapes, fileExists).Failure?
    ensures RebuildSlides(slides, fileExists).Failure?
  {
    var p := slides[..i + 1];
    assert p[..i] == slides[..i] && p[i] == slides[i];
    assert RebuildSlides(p, fileExists).Failure?;
    assert p + slides[i + 1..] == slides;
    RebuildSlidesConcat(p, slides[i + 1..], fileExists);
  }

  /** A slide rebuilds exactly when each of its image records has metadata. */
  lemma {:induction false} RebuildShapesSucceedsIff(shapes: seq<ShapeJson>, fileExists: string -> bool)
    ensures RebuildShapes(shapes, fileExists).Success? <==>
              forall k :: 0 <= k < |shapes| && shapes[k].kind == ImageKind ==> shapes[k].imageMetadata.Some?
  {
    if shapes != [] {
      var n := |shapes| - 1;
      RebuildShapesSucceedsIff(shapes[..n], fileExists);
      assert forall k :: 0 <= k < n ==> shapes[..n][k] == shapes[k];
    }
  }

  /** The rebuild succeeds exactly when every image record of every slide has
      metadata; the existence of files has no bearing on it. */
  lemma {:induction false} RebuildSucceedsIff(slides: seq<SlideJson>, fileExists: string -> bool)
    ensures RebuildSlides(slides, fileExists).Success? <==>
              forall i, k :: 0 <= i < |slides| && 0 <= k < |slides[i].shapes| && slides[i].shapes[k].kind == ImageKind ==>
                slides[i].shapes[k].imageMetadata.Some?
  {
    if slides != [] {
      var n := |slides| - 1;
      var init := slides[..n];
      RebuildSucceedsIff(init, fileExists);
      RebuildShapesSucceedsIff(slides[n].shapes, fileExists);
      assert RebuildSlides(slides, fileExists)
             == Combine(RebuildSlides(init, fileExists), AsSlide(RebuildShapes(slides[n].shapes, fileExists)));
      assert forall i :: 0 <= i < n ==> init[i] == slides[i];
    }
  }

  /** On success, the i-th output slide is exactly what the i-th JSON slide
      rebuilds to. */
  lemma {:induction false} RebuildSlidesEach(slides: seq<SlideJson>, fileExists: string -> bool)
    requires RebuildSlides(slides, fileExists).Success?
    ensures forall i :: 0 <= i < |slides| ==>
              RebuildShapes(slides[i].shapes, fileExists).Success? &&
              RebuildSlides(slides, fileExists).value[i] == RebuildShapes(slides[i].shapes, fileExists).value
  {
    if slides != [] {
      var n := |slides| - 1;
      RebuildSlidesEach(slides[..n], fileExists);
      assert forall i :: 0 <= i < n ==> slides[..n][i] == slides[i];
    }
  }

  /** When every slide rebuilds, the rebuild gives their shape lists in
      slide order. */
  lemma {:induction false} RebuildSlidesOf(slides: seq<SlideJson>, fileExists: string -> bool, out: seq<seq<DeckShape>>)
    requires |out| == |slides|
    requires forall i :: 0 <= i < |slides| ==> RebuildShapes(slides[i].shapes, fileExists) == Success(out[i])
    ensures RebuildSlides(slides, fileExists) == Success(out)
  {
    if slides != [] {
      var n := |slides| - 1;
      forall i | 0 <= i < n
        ensures RebuildShapes(slides[..n][i].shapes, fileExists) == Success(out[..n][i])
      {
        assert slides[..n][i] == slides[i] && out[..n][i] == out[i];
      }
      RebuildSlidesOf(slides[..n], fileExists, out[..n]);
      assert RebuildShapes(slides[n].shapes, fileExists) == Success(out[n]);
      assert RebuildSlides(slides, fileExists) == Combine(Success(out[..n]), Success([out[n]]));
      TakeSnoc(out, n);
      TakeAll(out);
    }
  }

  /** A record that adds nothing (an unknown type, or an image whose file is
      missing) can be dropped without changing the slide. */
  lemma {:induction false} RebuildShapesSkips(shapes: seq<ShapeJson>, j: nat, fileExists: string -> bool)
    requires j < |shapes|
    requires RebuildShape(shapes[j], fileExists) == Success([])
    ensures RebuildShapes(shapes, fileExists) == RebuildShapes(shapes[..j] + shapes[j + 1..], fileExists)
  {
    var p, x, q := shapes[..j], shapes[j], shapes[j + 1..];
    assert shapes == p + [x] + q;
    RebuildShapesConcat(p + [x], q, fileExists);
    RebuildShapesConcat(p, [x], fileExists);
    RebuildShapesConcat(p, q, fileExists);
    assert [x][..0] == [];
    assert RebuildShapes([x], fileExists) == Success([]);
    CombineUnit(RebuildShapes(p, fileExists));
  }

  /** Some record of `shapes` adds exactly `d`. */
  predicate AddedBySome(shapes: seq<ShapeJson>, fileExists: string -> bool, d: DeckShape) {
    exists j :: 0 <= j < |shapes| && RebuildShape(shapes[j], fileExists) == Success([d])
  }

  /** A record adds `d` in the prefix or as the last record. */
  lemma AddedBySomeSnoc(shapes: seq<ShapeJson>, fileExists: string -> bool, d: DeckShape)
    requires shapes != []
    ensures AddedBySome(shapes, fileExists, d) <==>
              AddedBySome(shapes[..|shapes| - 1], fileExists, d)
              || RebuildShape(shapes[|shapes| - 1], fileExists) == Success([d])
  {
    var n := |shapes| - 1;
    if AddedBySome(shapes, fileExists, d) {
      var j :| 0 <= j < |shapes| && RebuildShape(shapes[j], fileExists) == Success([d]);
      if j < n {
        assert shapes[..n][j] == shapes[j];
      }
    }
    if AddedBySome(shapes[..n], fileExists, d) {
      var j :| 0 <= j < n && RebuildShape(shapes[..n][j], fileExists) == Success([d]);
      assert shapes[..n][j] == shapes[j];
    }
  }

  /** On success, every shape a slide receives is what some record of the
      slide adds, and every shape a record adds is received. */
  lemma {:induction false} RebuildShapesMembership(shapes: seq<ShapeJson>, fileExists: string -> bool)
    requires RebuildShapes(shapes, fileExists).Success?
    ensures forall d :: d in RebuildShapes(shapes, fileExists).value <==> AddedBySome(shapes, fileExists, d)
  {
    if shapes != [] {
      var n := |shapes| - 1;
      var prev := RebuildShapes(shapes[..n], fileExists).value;
      var last := RebuildShape(shapes[n], fileExists).value;
      RebuildShapesMembership(shapes[..n], fileExists);
      assert RebuildShapes(shapes, fileExists).value == prev + last;
      forall d
        ensures d in prev + last <==> AddedBySome(shapes, fileExists, d)
      {
        AddedBySomeSnoc(shapes, fileExists, d);
        assert d in last <==> RebuildShape(shapes[n], fileExists) == Success([d]);
      }
    }
  }

  /** When each record adds exactly one shape (a text record, or an image
      record whose file is present), the k-th shape of the slide is the one
      the k-th record adds, at that record's EMU rectangle. */
  lemma {:induction false} RebuildShapesOneEach(shapes: seq<ShapeJson>, fileExists: string -> bool)
    requires forall k :: 0 <= k < |shapes| ==>
               RebuildShape(shapes[k], fileExists).Success? && |RebuildShape(shapes[k], fileExists).value| == 1
    ensures RebuildShapes(shapes, fileExists).Success?
    ensures |RebuildShapes(shapes, fileExists).value| == |shapes|
    ensures forall k :: 0 <= k < |shapes| ==>
              RebuildShapes(shapes, fileExists).value[k] == RebuildShape(shapes[k], fileExists).value[0]
              && RebuildShapes(shapes, fileExists).value[k].rect == ShapeRect(shapes[k])
  {
    if shapes != [] {
      var n := |shapes| - 1;
      var init := shapes[..n];
      forall k | 0 <= k < n
        ensures RebuildShape(init[k], fileExists).Success? && |RebuildShape(init[k], fileExists).value| == 1
      {
        assert init[k] == shapes[k];
      }
      RebuildShapesOneEach(init, fileExists);
      var prev := RebuildShapes(init, fileExists).value;
      var last := RebuildShape(shapes[n], fileExists).value;
      var out := prev + last;
      assert RebuildShapes(shapes, fileExists).value == out;
      forall k | 0 <= k < |shapes|
        ensures out[k] == RebuildShape(shapes[k], fileExists).value[0] && out[k].rect == ShapeRect(shapes[k])
      {
        if k < n {
          assert init[k] == shapes[k];
        }
      }
    }
  }
}
