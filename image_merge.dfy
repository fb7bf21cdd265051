/** Image merge: the positional-tolerance test `is_match`, and the pass that
    replaces the `"image"` records of each JSON slide by freshly extracted
    image records, the generated image file names and the archive filter. */
module ImageMerge {
  import opened Wrappers
  import opened Text
  import opened Units
  import opened Source
  import opened Interchange
  import opened Seqs

  // ---- is_match ----

  predicate DistinctKeys(d: seq<(string, real)>) {
    forall i, j :: 0 <= i < j < |d| ==> d[i].0 != d[j].0
  }

  /** A Python dict of numbers, as its insertion-ordered entries. */
  type Dict = d: seq<(string, real)> | DistinctKeys(d) witness []

  /** `d[key]`, or `None` where Python raises `KeyError`. */
  function Get(d: seq<(string, real)>, key: string): (r: Option<real>)
    ensures r.None? <==> forall i :: 0 <= i < |d| ==> d[i].0 != key
    ensures r.Some? ==> exists i :: 0 <= i < |d| && d[i] == (key, r.value)
  {
    if d == [] then None
    else if d[0].0 == key then Some(d[0].1)
    else Get(d[1..], key)
  }

  function Abs(x: real): real {
    if x < 0.0 then -x else x
  }

  datatype LookupError = KeyError(key: string)

  /** Every key of `d1` is in `d2` with a value within `tolerance`. */
  ghost predicate AllWithin(d1: seq<(string, real)>, d2: seq<(string, real)>, tolerance: real) {
    forall i :: 0 <= i < |d1| ==> Get(d2, d1[i].0).Some? && Abs(d1[i].1 - Get(d2, d1[i].0).value) <= tolerance
  }

  /** One of is_match's two loops: over the keys of `d1` in order, false at
      the first key whose values differ by more than `tolerance`, an error at
      the first key `d2` lacks. It is true exactly when every key of `d1` is
      within `tolerance` of the same key of `d2`. */
  function KeysWithin(d1: seq<(string, real)>, d2: seq<(string, real)>, tolerance: real): (r: Result<bool, LookupError>)
    ensures r == Success(true) <==> AllWithin(d1, d2, tolerance)
  {
    if d1 == [] then Success(true)
    else
      assert forall i :: 1 <= i < |d1| ==> d1[1..][i - 1] == d1[i];
      match Get(d2, d1[0].0)
      case None => Failure(KeyError(d1[0].0))
      case Some(v) => if Abs(d1[0].1 - v) > tolerance then Success(false) else KeysWithin(d1[1..], d2, tolerance)
  }

  const DefaultTolerance: real := 1.5

  /** `is_match(pos1, size1, pos2, size2, tolerance)`: true exactly when every
      key of `pos1` and of `size1` is within `tolerance` (inclusive) of the
      same key of `pos2` and `size2`. */
  function IsMatch(pos1: Dict, size1: Dict, pos2: Dict, size2: Dict, tolerance: real): (r: Result<bool, LookupError>)
    ensures r == Success(true) <==> AllWithin(pos1, pos2, tolerance) && AllWithin(size1, size2, tolerance)
  {
    match KeysWithin(pos1, pos2, tolerance)
    case Failure(e) => Failure(e)
    case Success(ok) => if !ok then Success(false) else KeysWithin(size1, size2, tolerance)
  }

  lemma {:induction false} KeysWithinFirstKeysOnly(d1: seq<(string, real)>, d2: seq<(string, real)>, d2': seq<(string, real)>, tolerance: real)
    requires forall i :: 0 <= i < |d1| ==> Get(d2, d1[i].0) == Get(d2', d1[i].0)
    ensures KeysWithin(d1, d2, tolerance) == KeysWithin(d1, d2', tolerance)
  {
    if d1 != [] {
      assert Get(d2, d1[0].0) == Get(d2', d1[0].0);
      assert forall i :: 0 <= i < |d1[1..]| ==> d1[1..][i] == d1[i + 1];
      KeysWithinFirstKeysOnly(d1[1..], d2, d2', tolerance);
    }
  }

  /** is_match consults only the keys of its first two arguments: entries of
      `pos2`/`size2` under other keys make no difference. */
  lemma IsMatchReadsFirstKeysOnly(pos1: Dict, size1: Dict, pos2: Dict, size2: Dict, pos2': Dict, size2': Dict, tolerance: real)
    requires forall i :: 0 <= i < |pos1| ==> Get(pos2, pos1[i].0) == Get(pos2', pos1[i].0)
    requires forall i :: 0 <= i < |size1| ==> Get(size2, size1[i].0) == Get(size2', size1[i].0)
    ensures IsMatch(pos1, size1, pos2, size2, tolerance) == IsMatch(pos1, size1, pos2', size2', tolerance)
  {
    KeysWithinFirstKeysOnly(pos1, pos2, pos2', tolerance);
    KeysWithinFirstKeysOnly(size1, size2, size2', tolerance);
  }

  lemma GetOwnEntry(d: Dict, i: nat)
    requires i < |d|
    ensures Get(d, d[i].0) == Some(d[i].1)
  {
    var r := Get(d, d[i].0);
    var k :| 0 <= k < |d| && d[k] == (d[i].0, r.value);
    assert k == i;
  }

  /** is_match is reflexive for every non-negative tolerance. */
  lemma IsMatchReflexive(pos: Dict, size: Dict, tolerance: real)
    requires tolerance >= 0.0
    ensures IsMatch(pos, size, pos, size, tolerance) == Success(true)
  {
    forall i | 0 <= i < |pos| ensures Get(pos, pos[i].0) == Some(pos[i].1) {
      GetOwnEntry(pos, i);
    }
    forall i | 0 <= i < |size| ensures Get(size, size[i].0) == Some(size[i].1) {
      GetOwnEntry(size, i);
    }
  }

  /** The JSON `position` and `size` objects as dicts. */
  function PositionDict(p: Position): Dict {
    [("x_pt", p.xPt), ("y_pt", p.yPt)]
  }

  function SizeDict(z: Size): Dict {
    [("width_pt", z.widthPt), ("height_pt", z.heightPt)]
  }

  /** On the merge's records is_match never raises, and it compares the four
      coordinates. */
  lemma GeometryMatch(p1: Position, z1: Size, p2: Position, z2: Size, tolerance: real)
    ensures IsMatch(PositionDict(p1), SizeDict(z1), PositionDict(p2), SizeDict(z2), tolerance)
            == Success(Abs(p1.xPt - p2.xPt) <= tolerance && Abs(p1.yPt - p2.yPt) <= tolerance
                       && Abs(z1.widthPt - z2.widthPt) <= tolerance && Abs(z1.heightPt - z2.heightPt) <= tolerance)
  {
    var pd := PositionDict(p2);
    var sd := SizeDict(z2);
    var pd1 := PositionDict(p1);
    var sd1 := SizeDict(z1);
    assert pd1[1..] == [("y_pt", p1.yPt)] && pd1[1..][1..] == [];
    assert sd1[1..] == [("height_pt", z1.heightPt)] && sd1[1..][1..] == [];
    assert Get(pd, "x_pt") == Some(p2.xPt);
    assert Get(pd, "y_pt") == Some(p2.yPt);
    assert Get(sd, "width_pt") == Some(z2.widthPt);
    assert Get(sd, "height_pt") == Some(z2.heightPt);
    assert KeysWithin(pd1[1..][1..], pd, tolerance) == Success(true);
    assert KeysWithin(pd1[1..], pd, tolerance) == Success(Abs(p1.yPt - p2.yPt) <= tolerance);
    assert KeysWithin(pd1, pd, tolerance)
      == Success(Abs(p1.xPt - p2.xPt) <= tolerance && Abs(p1.yPt - p2.yPt) <= tolerance);
    assert KeysWithin(sd1[1..][1..], sd, tolerance) == Success(true);
    assert KeysWithin(sd1[1..], sd, tolerance) == Success(Abs(z1.heightPt - z2.heightPt) <= tolerance);
    assert KeysWithin(sd1, sd, tolerance)
      == Success(Abs(z1.widthPt - z2.widthPt) <= tolerance && Abs(z1.heightPt - z2.heightPt) <= tolerance);
  }

  // ---- File names and the archive ----

  /** `uuid4().hex[:8]`: at most the first eight characters. */
  function Prefix8(hex: string): (r: string)
    ensures |r| == if |hex| < 8 then |hex| else 8
    ensures r == hex[..|r|]
  {
    if |hex| <= 8 then hex else hex[..8]
  }

  /** `f"slide{slide_index+1}_img_{hex8}.{ext}"`. */
  function ImageFilename(slideIndex: nat, uuidHex: string, ext: string): string {
    "slide" + NatToString(slideIndex + 1) + "_img_" + Prefix8(uuidHex) + "." + ext
  }

  /** The leading decimal digits of `s`. */
  function LeadingDigits(s: string): (r: string)
    ensures |r| <= |s| && r == s[..|r|]
    ensures forall k :: 0 <= k < |r| ==> '0' <= r[k] <= '9'
  {
    if s != [] && '0' <= s[0] <= '9' then [s[0]] + LeadingDigits(s[1..]) else []
  }

  lemma {:induction false} LeadingDigitsOfConcat(d: string, rest: string)
    requires forall k :: 0 <= k < |d| ==> '0' <= d[k] <= '9'
    requires rest != [] && !('0' <= rest[0] <= '9')
    ensures LeadingDigits(d + rest) == d
  {
    if d == [] {
      assert d + rest == rest;
    } else {
      assert (d + rest)[0] == d[0];
      assert (d + rest)[1..] == d[1..] + rest;
      LeadingDigitsOfConcat(d[1..], rest);
      assert [d[0]] + d[1..] == d;
    }
  }

  /** The slide number a generated image file name carries: the digits after
      its `slide` prefix. */
  function SlideNumberOfFilename(name: string): Option<nat> {
    if |name| >= 5 && name[..5] == "slide" then Some(ParseNat(LeadingDigits(name[5..]))) else None
  }

  lemma SlideNumberOfConcat(digits: string, rest: string)
    requires forall k :: 0 <= k < |digits| ==> '0' <= digits[k] <= '9'
    requires rest != [] && !('0' <= rest[0] <= '9')
    ensures SlideNumberOfFilename("slide" + digits + rest) == Some(ParseNat(digits))
  {
    var prefix := "slide";
    AppendAssoc(prefix, digits, rest);
    SplitAt(prefix, digits + rest);
    LeadingDigitsOfConcat(digits, rest);
  }

  /** A generated file name reads back as the 1-based number of the slide it
      came from, and ends in a dot and the image's extension. */
  lemma ImageFilenameRecoversSlide(slideIndex: nat, uuidHex: string, ext: string)
    ensures SlideNumberOfFilename(ImageFilename(slideIndex, uuidHex, ext)) == Some(slideIndex + 1)
    ensures EndsWith(ImageFilename(slideIndex, uuidHex, ext), "." + ext)
  {
    var digits := NatToString(slideIndex + 1);
    var head := "slide" + digits;
    var tag, id, dot := "_img_", Prefix8(uuidHex), ".";
    var name := ImageFilename(slideIndex, uuidHex, ext);
    // name == (((head + tag) + id) + dot) + ext
    AppendAssoc(head, tag, id);
    AppendAssoc(head, tag + id, dot);
    AppendAssoc(head, tag + id + dot, ext);
    var rest := tag + id + dot + ext;
    assert name == head + rest;
    assert rest[0] == '_';
    SlideNumberOfConcat(digits, rest);
    ParseNatToString(slideIndex + 1);
    var body := head + tag + id;
    AppendAssoc(body, dot, ext);
    SplitAt(body, dot + ext);
  }

  const ArchivedExtensions: seq<string> := [".jpg", ".jpeg", ".png", ".bmp", ".gif"]

  /** `f.lower().endswith(('.jpg', '.jpeg', '.png', '.bmp', '.gif'))`. */
  predicate IsArchived(name: string) {
    EndsWithAny(Lower(name), ArchivedExtensions)
  }

  /** The five suffixes, spelt out. */
  predicate ArchivedSuffix(low: string) {
    EndsWith(low, ".jpg") || EndsWith(low, ".jpeg") || EndsWith(low, ".png")
    || EndsWith(low, ".bmp") || EndsWith(low, ".gif")
  }

  /** A name is archived exactly when its lower-cased form ends in one of the
      five suffixes. */
  lemma IsArchivedListed(name: string)
    ensures IsArchived(name) <==> ArchivedSuffix(Lower(name))
  {
    var low := Lower(name);
    if EndsWithAny(low, ArchivedExtensions) {
      var k :| 0 <= k < |ArchivedExtensions| && EndsWith(low, ArchivedExtensions[k]);
      assert k == 0 || k == 1 || k == 2 || k == 3 || k == 4;
    }
    if ArchivedSuffix(low) {
      if EndsWith(low, ".jpg") { assert EndsWith(low, ArchivedExtensions[0]); }
      else if EndsWith(low, ".jpeg") { assert EndsWith(low, ArchivedExtensions[1]); }
      else if EndsWith(low, ".png") { assert EndsWith(low, ArchivedExtensions[2]); }
      else if EndsWith(low, ".bmp") { assert EndsWith(low, ArchivedExtensions[3]); }
      else { assert EndsWith(low, ArchivedExtensions[4]); }
    }
  }

  /** The directory entries that go into the zip archive, in listing order. */
  function ArchiveEntries(names: seq<string>): (r: seq<string>)
    ensures forall x :: x in r <==> x in names && IsArchived(x)
  {
    if names == [] then []
    else (if IsArchived(names[0]) then [names[0]] else []) + ArchiveEntries(names[1..])
  }

  lemma {:induction false} ArchiveEntriesConcat(a: seq<string>, b: seq<string>)
    ensures ArchiveEntries(a + b) == ArchiveEntries(a) + ArchiveEntries(b)
  {
    if a == [] {
      assert a + b == b;
    } else {
      assert (a + b)[0] == a[0];
      assert (a + b)[1..] == a[1..] + b;
      ArchiveEntriesConcat(a[1..], b);
    }
  }

  /** A generated image file goes into the archive exactly when its
      lower-cased extension is one of the five listed. */
  lemma GeneratedNameArchivedIff(slideIndex: nat, uuidHex: string, ext: string)
    ensures IsArchived(ImageFilename(slideIndex, uuidHex, ext)) <==> EndsWithAny(Lower("." + ext), ArchivedExtensions)
  {
    var head := "slide" + NatToString(slideIndex + 1) + "_img_" + Prefix8(uuidHex);
    var tail := "." + ext;
    assert ImageFilename(slideIndex, uuidHex, ext) == head + tail;
    LowerConcat(head, tail);
    var lower := Lower(head + tail);
    var lt := Lower(tail);
    assert lower == Lower(head) + lt;
    assert lt[0] == '.';
    forall k | 0 <= k < |ArchivedExtensions|
      ensures EndsWith(lower, ArchivedExtensions[k]) <==> EndsWith(lt, ArchivedExtensions[k])
    {
      var e := ArchivedExtensions[k];
      ArchivedExtensionShape(k);
      if EndsWith(lower, e) {
        LongerSuffixImpossible(Lower(head), lt, e);
      }
      if EndsWith(lt, e) {
        assert lower[|lower| - |e|..] == lt[|lt| - |e|..];
      }
    }
  }

  lemma ArchivedExtensionShape(k: nat)
    requires k < |ArchivedExtensions|
    ensures |ArchivedExtensions[k]| >= 1 && ArchivedExtensions[k][0] == '.'
    ensures '.' !in ArchivedExtensions[k][1..]
  {
  }

  lemma NoDotAfterFirst(e: string, q: nat)
    requires 1 <= q < |e| && '.' !in e[1..]
    ensures e[q] != '.'
  {
    assert e[1..][q - 1] == e[q];
  }

  /** If `e` has exactly one dot, at its start, and `t` starts with a dot,
      then `e` can end `h + t` only by ending `t`. */
  lemma LongerSuffixImpossible(h: string, t: string, e: string)
    requires |t| >= 1 && t[0] == '.'
    requires |e| >= 1 && e[0] == '.' && '.' !in e[1..]
    requires EndsWith(h + t, e)
    ensures EndsWith(t, e)
  {
    var s := h + t;
    if |e| > |t| {
      NoDotAfterFirst(e, |e| - |t|);
      assert false;
    }
    assert s[|s| - |e|..] == t[|t| - |e|..];
  }

  // ---- The merge pass ----

  /** What saving one picture yields: the random identifier drawn for its
      file name, the file's absolute path and the base64 text of the bytes
      read back, or an exception, which the pass catches. */
  datatype ImageIo = Saved(uuidHex: string, savedPath: string, base64: string) | Failed

  /** The image record built for a saved picture of slide `slideIndex`. */
  function ImageRecord(slideIndex: nat, s: SourceShape, saved: ImageIo): (r: ShapeJson)
    requires saved.Saved?
    ensures r.kind == ImageKind && r.name == s.name
    ensures r.position == PositionOf(s) && r.size == SizeOf(s)
    ensures r.content.None? && r.textProperties.None?
    ensures r.imageMetadata == Some(ImageMetadata(s.image.contentType, s.image.ext,
              ImageFilename(slideIndex, saved.uuidHex, s.image.ext), saved.savedPath, saved.base64))
  {
    ShapeJson(ImageKind, s.name, PositionOf(s), SizeOf(s), None, None,
      Some(ImageMetadata(s.image.contentType, s.image.ext,
        ImageFilename(slideIndex, saved.uuidHex, s.image.ext), saved.savedPath, saved.base64)))
  }

  /** Shape `j` of slide `slideIndex` yields a record when it is a picture
      with a non-empty blob whose write and read-back succeed. */
  function PictureRecord(slideIndex: nat, j: nat, s: SourceShape, io: (nat, nat) -> ImageIo): (r: Option<ShapeJson>)
    ensures r.Some? <==> s.isPicture && |s.image.blob| > 0 && io(slideIndex, j).Saved?
    ensures r.Some? ==> r.value == ImageRecord(slideIndex, s, io(slideIndex, j))
  {
    if s.isPicture && |s.image.blob| > 0 && io(slideIndex, j).Saved? then
      Some(ImageRecord(slideIndex, s, io(slideIndex, j)))
    else None
  }

  /** The records appended for a slide's pictures, in shape order. */
  function NewImages(slideIndex: nat, shapes: seq<SourceShape>, io: (nat, nat) -> ImageIo): (r: seq<ShapeJson>)
    ensures |r| <= |shapes|
    ensures forall k :: 0 <= k < |r| ==> r[k].kind == ImageKind && r[k].imageMetadata.Some?
  {
    if shapes == [] then []
    else NewImages(slideIndex, shapes[..|shapes| - 1], io)
         + PictureRecord(slideIndex, |shapes| - 1, shapes[|shapes| - 1], io).ToSeq()
  }

  /** `[s for s in shapes if s["type"] != "image"]`. */
  function WithoutImages(shapes: seq<ShapeJson>): (r: seq<ShapeJson>)
    ensures |r| <= |shapes|
    ensures forall x :: x in r <==> x in shapes && x.kind != ImageKind
  {
    if shapes == [] then []
    else WithoutImages(shapes[..|shapes| - 1])
         + (if shapes[|shapes| - 1].kind != ImageKind then [shapes[|shapes| - 1]] else [])
  }

  /** A processed slide: its non-image shapes, then its fresh image records. */
  function MergeSlide(slideIndex: nat, slide: SlideJson, src: SourceSlide, io: (nat, nat) -> ImageIo): (r: SlideJson)
    ensures r.slideNumber == slide.slideNumber
  {
    slide.(shapes := WithoutImages(slide.shapes) + NewImages(slideIndex, src.shapes, io))
  }

  /** The JSON slide list after the pass over the presentation's slides
      `prs`: a slide with no counterpart in `prs` is left as it was. */
  function MergeSlides(js: seq<SlideJson>, prs: seq<SourceSlide>, io: (nat, nat) -> ImageIo): (r: seq<SlideJson>)
    ensures |r| == |js|
    ensures forall k :: 0 <= k < |js| ==> r[k].slideNumber == js[k].slideNumber
    ensures forall k :: |prs| <= k < |js| ==> r[k] == js[k]
  {
    seq(|js|, k requires 0 <= k < |js| => if k < |prs| then MergeSlide(k, js[k], prs[k], io) else js[k])
  }

  /** Some image record of the slide lies within the default tolerance of
      the given geometry. */
  predicate HasMatch(current: seq<ShapeJson>, position: Position, size: Size) {
    exists k :: 0 <= k < |current| && current[k].kind == ImageKind
                && IsMatch(PositionDict(current[k].position), SizeDict(current[k].size),
                           PositionDict(position), SizeDict(size), DefaultTolerance) == Success(true)
  }

  /** The loop that looks for an image record of the slide at the new
      picture's geometry: true iff one lies within the default tolerance. */
  method FindMatch(current: seq<ShapeJson>, position: Position, size: Size) returns (matched: bool)
    ensures matched <==> HasMatch(current, position, size)
  {
    matched := false;
    var m := 0;
    while m < |current|
      invariant 0 <= m <= |current|
      invariant !(exists k :: 0 <= k < m && current[k].kind == ImageKind
                    && IsMatch(PositionDict(current[k].position), SizeDict(current[k].size),
                               PositionDict(position), SizeDict(size), DefaultTolerance) == Success(true))
    {
      if current[m].kind == ImageKind {
        var r := IsMatch(PositionDict(current[m].position), SizeDict(current[m].size),
                         PositionDict(position), SizeDict(size), DefaultTolerance);
        if r == Success(true) {
          matched := true;
          return;
        }
      }
      m := m + 1;
    }
  }

  /** `update_blank_json_with_images_precise` on `json_data["slides"]`, with
      the presentation's slides `prs` and the outcome of saving each
      picture given by `io`; the JSON and image files are not modelled. */
  method UpdateBlankJsonWithImages(slides: array<SlideJson>, prs: seq<SourceSlide>, io: (nat, nat) -> ImageIo)
    modifies slides
    ensures slides[..] == MergeSlides(old(slides[..]), prs, io)
  {
    ghost var before := slides[..];
    ghost var after := MergeSlides(before, prs, io);
    var slideIndex := 0;
    while slideIndex < |prs|
      invariant 0 <= slideIndex <= |prs|
      invariant forall k :: 0 <= k < slides.Length ==>
                  slides[k] == if k < slideIndex then after[k] else before[k]
    {
      if slideIndex >= slides.Length {
        slideIndex := slideIndex + 1;
        continue;
      }
      ReplaceSlideImages(slides, slideIndex, prs[slideIndex], io);
      slideIndex := slideIndex + 1;
    }
    assert slides[..] == after;
  }

  /** The body of the shape loop: a picture with bytes is saved, and when
      the save and the read-back succeed its record is appended after the
      (unused) search for a matching image record. */
  method ProcessShape(current: seq<ShapeJson>, slideIndex: nat, j: nat, shape: SourceShape, io: (nat, nat) -> ImageIo)
    returns (next: seq<ShapeJson>)
    ensures next == current + PictureRecord(slideIndex, j, shape, io).ToSeq()
  {
    next := current;
    if shape.isPicture {
      var position := Position(EmuToPoints(shape.left), EmuToPoints(shape.top));
      var size := Size(EmuToPoints(shape.width), EmuToPoints(shape.height));
      var image := shape.image;
      if |image.blob| > 0 {
        var outcome := io(slideIndex, j);
        if outcome.Saved? {
          var filename := ImageFilename(slideIndex, outcome.uuidHex, image.ext);
          var record := ShapeJson(ImageKind, shape.name, position, size, None, None,
            Some(ImageMetadata(image.contentType, image.ext, filename, outcome.savedPath, outcome.base64)));
          // Match to JSON by position/size: the result is never used.
          var matched := FindMatch(current, position, size);
          next := current + [record];
        }
      }
    }
    AppendEmpty(current);
  }

  /** One more shape adds its record, if any. */
  lemma NewImagesSnoc(slideIndex: nat, shapes: seq<SourceShape>, j: nat, io: (nat, nat) -> ImageIo)
    requires j < |shapes|
    ensures NewImages(slideIndex, shapes[..j + 1], io)
            == NewImages(slideIndex, shapes[..j], io) + PictureRecord(slideIndex, j, shapes[j], io).ToSeq()
  {
    assert shapes[..j + 1][..j] == shapes[..j];
  }

  /** One pass of the slide loop: purges the image records of JSON slide
      `slideIndex`, then appends one record per saved picture of `src`. */
  method ReplaceSlideImages(slides: array<SlideJson>, slideIndex: nat, src: SourceSlide, io: (nat, nat) -> ImageIo)
    requires slideIndex < slides.Length
    modifies slides
    ensures slides[..] == old(slides[..])[slideIndex := MergeSlide(slideIndex, old(slides[slideIndex]), src, io)]
  {
    ghost var before := slides[..];
    var slideData := slides[slideIndex];
    // Remove image placeholders
    var current := WithoutImages(slideData.shapes);

    var shapes := src.shapes;
    var j := 0;
    assert NewImages(slideIndex, shapes[..j], io) == [];
    assert current == WithoutImages(slideData.shapes) + [];
    while j < |shapes|
      invariant 0 <= j <= |shapes|
      invariant current == WithoutImages(slideData.shapes) + NewImages(slideIndex, shapes[..j], io)
      invariant slides[..] == before
    {
      NewImagesSnoc(slideIndex, shapes, j, io);
      ghost var added := NewImages(slideIndex, shapes[..j], io);
      current := ProcessShape(current, slideIndex, j, shapes[j], io);
      AppendAssoc(WithoutImages(slideData.shapes), added, PictureRecord(slideIndex, j, shapes[j], io).ToSeq());
      j := j + 1;
    }
    assert shapes[..j] == shapes;
    assert slideData.(shapes := current) == MergeSlide(slideIndex, slideData, src, io);
    slides[slideIndex] := slideData.(shapes := current);
    assert slides[..] == before[slideIndex := slideData.(shapes := current)];
  }

  // ---- Properties of the merge ----

  lemma {:induction false} WithoutImagesConcat(a: seq<ShapeJson>, b: seq<ShapeJson>)
    ensures WithoutImages(a + b) == WithoutImages(a) + WithoutImages(b)
  {
    if b == [] {
      assert a + b == a;
    } else {
      var n := |b| - 1;
      var t := if b[n].kind != ImageKind then [b[n]] else [];
      assert (a + b)[..|a + b| - 1] == a + b[..n];
      assert (a + b)[|a + b| - 1] == b[n];
      assert WithoutImages(a + b) == WithoutImages(a + b[..n]) + t;
      WithoutImagesConcat(a, b[..n]);
      assert WithoutImages(b) == WithoutImages(b[..n]) + t;
      AppendAssoc(WithoutImages(a), WithoutImages(b[..n]), t);
    }
  }

  lemma {:induction false} WithoutImagesIdempotent(a: seq<ShapeJson>)
    ensures WithoutImages(WithoutImages(a)) == WithoutImages(a)
  {
    if a != [] {
      var n := |a| - 1;
      WithoutImagesIdempotent(a[..n]);
      var last := if a[n].kind != ImageKind then [a[n]] else [];
      WithoutImagesConcat(WithoutImages(a[..n]), last);
    }
  }

  lemma {:induction false} WithoutImagesOfNewImages(slideIndex: nat, shapes: seq<SourceShape>, io: (nat, nat) -> ImageIo)
    ensures WithoutImages(NewImages(slideIndex, shapes, io)) == []
  {
    if shapes != [] {
      var n := |shapes| - 1;
      var last := PictureRecord(slideIndex, n, shapes[n], io).ToSeq();
      WithoutImagesOfNewImages(slideIndex, shapes[..n], io);
      WithoutImagesConcat(NewImages(slideIndex, shapes[..n], io), last);
      assert WithoutImages(last) == [] by {
        if last != [] {
          assert last == [last[0]] && last[0].kind == ImageKind;
          assert WithoutImages(last) == WithoutImages(last[..0]) + [];
        }
      }
    }
  }

  /** In a processed slide, the non-image shapes are exactly the old ones, in
      their old order, and every image shape is a fresh record for one of the
      source slide's pictures. */
  lemma MergeSlideReplacesImages(js: seq<SlideJson>, prs: seq<SourceSlide>, io: (nat, nat) -> ImageIo, k: nat)
    requires k < |js| && k < |prs|
    ensures WithoutImages(MergeSlides(js, prs, io)[k].shapes) == WithoutImages(js[k].shapes)
    ensures forall x :: x in MergeSlides(js, prs, io)[k].shapes && x.kind == ImageKind ==>
              exists j :: 0 <= j < |prs[k].shapes| && PictureRecord(k, j, prs[k].shapes[j], io) == Some(x)
  {
    var kept := WithoutImages(js[k].shapes);
    var added := NewImages(k, prs[k].shapes, io);
    WithoutImagesConcat(kept, added);
    WithoutImagesIdempotent(js[k].shapes);
    WithoutImagesOfNewImages(k, prs[k].shapes, io);
    assert MergeSlides(js, prs, io)[k].shapes == kept + added;
    forall x: ShapeJson | x in kept + added && x.kind == ImageKind
      ensures exists j :: 0 <= j < |prs[k].shapes| && PictureRecord(k, j, prs[k].shapes[j], io) == Some(x)
    {
      NewImagesMembership(k, prs[k].shapes, io, x);
    }
  }

  /** A record is among a slide's new images exactly when some shape of the
      source slide yields it. */
  lemma {:induction false} NewImagesMembership(slideIndex: nat, shapes: seq<SourceShape>, io: (nat, nat) -> ImageIo, r: ShapeJson)
    ensures r in NewImages(slideIndex, shapes, io) <==>
            exists j :: 0 <= j < |shapes| && PictureRecord(slideIndex, j, shapes[j], io) == Some(r)
  {
    if shapes != [] {
      var n := |shapes| - 1;
      var prefix := shapes[..n];
      NewImagesMembership(slideIndex, prefix, io, r);
      var last := PictureRecord(slideIndex, n, shapes[n], io);
      assert NewImages(slideIndex, shapes, io) == NewImages(slideIndex, prefix, io) + last.ToSeq();
      assert forall j :: 0 <= j < n ==> prefix[j] == shapes[j];
    }
  }

  /** Fail-soft: a picture whose blob is empty or whose save fails is skipped
      as if it were not a picture, and every other shape is still processed. */
  lemma {:induction false} UnsavedPictureIsSkipped(slideIndex: nat, shapes: seq<SourceShape>, io: (nat, nat) -> ImageIo, j: nat)
    requires j < |shapes|
    requires |shapes[j].image.blob| == 0 || io(slideIndex, j).Failed?
    ensures NewImages(slideIndex, shapes, io) == NewImages(slideIndex, shapes[j := shapes[j].(isPicture := false)], io)
  {
    var n := |shapes| - 1;
    var shapes' := shapes[j := shapes[j].(isPicture := false)];
    if j < n {
      assert shapes'[..n] == shapes[..n][j := shapes[j].(isPicture := false)];
      UnsavedPictureIsSkipped(slideIndex, shapes[..n], io, j);
      SameLastRecord(slideIndex, shapes, shapes', io);
    } else {
      assert shapes'[..n] == shapes[..n];
      assert PictureRecord(slideIndex, n, shapes'[n], io).None?;
      SameLastRecord(slideIndex, shapes, shapes', io);
    }
  }

  /** Two shape lists whose last shapes give the same record (or none) give
      the same records exactly when their other shapes do. */
  lemma SameLastRecord(slideIndex: nat, a: seq<SourceShape>, b: seq<SourceShape>, io: (nat, nat) -> ImageIo)
    requires |a| == |b| > 0
    requires NewImages(slideIndex, a[..|a| - 1], io) == NewImages(slideIndex, b[..|b| - 1], io)
    requires PictureRecord(slideIndex, |a| - 1, a[|a| - 1], io) == PictureRecord(slideIndex, |b| - 1, b[|b| - 1], io)
    ensures NewImages(slideIndex, a, io) == NewImages(slideIndex, b, io)
  {
  }

  /** When every shape is a picture with bytes that saves, the slide gets one
      record per shape, the k-th for the k-th shape. */
  lemma {:induction false} AllSavedOneRecordEach(slideIndex: nat, shapes: seq<SourceShape>, io: (nat, nat) -> ImageIo)
    requires forall j :: 0 <= j < |shapes| ==>
               shapes[j].isPicture && |shapes[j].image.blob| > 0 && io(slideIndex, j).Saved?
    ensures |NewImages(slideIndex, shapes, io)| == |shapes|
    ensures forall k :: 0 <= k < |shapes| ==>
              NewImages(slideIndex, shapes, io)[k] == ImageRecord(slideIndex, shapes[k], io(slideIndex, k))
  {
    if shapes != [] {
      AllSavedOneRecordEach(slideIndex, shapes[..|shapes| - 1], io);
    }
  }

  /** Running the pass twice with the same presentation and the same save
      outcomes gives the same JSON as running it once. */
  lemma MergeIdempotent(js: seq<SlideJson>, prs: seq<SourceSlide>, io: (nat, nat) -> ImageIo)
    ensures MergeSlides(MergeSlides(js, prs, io), prs, io) == MergeSlides(js, prs, io)
  {
    var once := MergeSlides(js, prs, io);
    var twice := MergeSlides(once, prs, io);
    forall k | 0 <= k < |js|
      ensures twice[k] == once[k]
    {
      if k < |prs| {
        MergeSlideStable(js, prs, io, k);
      }
    }
  }

  lemma MergeSlideStable(js: seq<SlideJson>, prs: seq<SourceSlide>, io: (nat, nat) -> ImageIo, k: nat)
    requires k < |js| && k < |prs|
    ensures MergeSlide(k, MergeSlides(js, prs, io)[k], prs[k], io) == MergeSlides(js, prs, io)[k]
  {
    assert MergeSlides(js, prs, io)[k] == MergeSlide(k, js[k], prs[k], io);
    MergeSlideTwice(k, js[k], prs[k], io);
  }

  /** Processing one slide twice gives what processing it once gives. */
  lemma MergeSlideTwice(slideIndex: nat, slide: SlideJson, src: SourceSlide, io: (nat, nat) -> ImageIo)
    ensures MergeSlide(slideIndex, MergeSlide(slideIndex, slide, src, io), src, io) == MergeSlide(slideIndex, slide, src, io)
  {
    var kept := WithoutImages(slide.shapes);
    var added := NewImages(slideIndex, src.shapes, io);
    WithoutImagesConcat(kept, added);
    WithoutImagesIdempotent(slide.shapes);
    WithoutImagesOfNewImages(slideIndex, src.shapes, io);
    assert WithoutImages(kept + added) == kept;
  }
}
