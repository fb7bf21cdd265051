# Presentation and document conversion scripts, modelled in Dafny

This project models the four conversion scripts at the core of the repository.

- **Layout extraction** (`test2/pp.py`). It reads a source deck. It writes a JSON layout document with one record per text or picture shape, giving geometry in points and a 1-based slide number. It also writes a blank deck that holds one placeholder text box per kept shape, at the shape's own EMU geometry.
- **Image merge** (`test2/pp1.py`). It edits the JSON slide list in place. On each slide that has a source slide, the old image records are purged. Then one fresh image record is appended per picture whose bytes were saved. That record carries the generated file name `slide<n>_img_<hex8>.<ext>`. The script also compares geometries with `is_match`, whose result is never used, and selects the files that go into the image archive by their extension.
- **Rebuild** (`test2/pp2.py`). It builds a deck from the JSON. It adds one blank slide per JSON slide, a text box per `"text"` record, and a picture per `"image"` record whose file is present. Geometry goes back to EMU through `points_to_emu`. An image record without `image_metadata` aborts the whole rebuild.
- **DOCX to LaTeX** (`texcode/p.py`). It escapes each run's text with a chain of ten ordered replacements. It wraps the run in bold, italic, underline, colour and highlight commands, in that order. It joins the runs of a paragraph with spaces, puts the paragraph in its alignment environment or emits the blank-paragraph line, and frames the whole with the fixed preamble and `\end{document}`.

The module `Pipeline` chains the first three scripts on one source deck and proves the round trip below:

- Extraction, then merge, then rebuild never fails.
- It keeps the slide size and the slide count.
- Every slide gets its source text boxes back at their EMU geometry, followed by the pictures that were saved and whose files are present.

The sizes and geometries come back exactly because the model computes in exact real arithmetic. With the program's IEEE doubles they can come back one EMU low; see "## Left out".

Layout of the project:

- `units.dfy`: EMU/point conversion.
- `source.dfy`: the source deck as the readers expose it.
- `interchange.dfy`: the JSON document.
- `deck.dfy`: a class for a deck being written, with its slide size and the shapes added to each slide.
- `extraction.dfy`, `image_merge.dfy`, `rebuild.dfy` and `latex.dfy`: one module per script.
- `pipeline.dfy`: the end-to-end lemmas.
- `text.dfy`: the Python string operations the scripts use (`replace`, `join`, `strip`, `lower`, `endswith`). It also holds `Split`, which no script calls; it serves only to state that the newline join of `get_text_from_shape` can be undone.
- `wrappers.dfy` and `seqs.dfy`: small generic helpers.

The loops of the scripts are methods with loop invariants. Each method is proved equal to a specification function, and the properties are proved as lemmas about those functions:

- `ExtractShapesToJson` and `ExtractSlide`.
- `UpdateBlankJsonWithImages`, `ReplaceSlideImages`, `ProcessShape` and `FindMatch`.
- `BuildPptxFromJson` and `BuildSlide`.
- `DocxToLatex`, `ConvertParagraph`, `ConvertRuns` and `WrapText`.

The decks being written are objects of the class `Deck.Presentation`, which the methods modify. The JSON slide list that the merge edits in place is an `array`.

Geometry is exact `real` arithmetic, an idealisation of the program's doubles. `emu / 12700.0` is exact division, and `int(pt * 12700)` is truncation toward zero, not rounding.

Some behaviour follows the code as written even where it surprises. The backslash becomes `\textbackslash\{\}`, because the later brace steps escape the braces its replacement introduced. The tilde and the caret keep bare braces, because their steps run after the brace steps.

## Model

| member | source | states |
|---|---|---|
| Units.EmuToPoints | test2/pp.py:6-7 | the points value times 12700 is exactly the EMU value, and the sign is kept |
| Units.PointsToEmu | test2/pp2.py:7-8 | the result lies within one EMU of `pt * 12700`, on the side of zero (truncation, not rounding) |
| Units.Truncate | test2/pp2.py:8 | `int()` of a real: the integer part toward zero, for both signs |
| Units.PointsToEmuTruncatesTowardZero | test2/pp2.py:7-8 | 0.9 and -0.9 EMU go to 0; 2.5 goes to 2 and -2.5 to -2 |
| Units.EmuRoundTrip | test2/pp2.py:33-34 | `points_to_emu(e / 12700)` is `e` for every integer `e` |
| Units.PointsRoundTrip | test2/pp2.py:7-8 | converting a points value to EMU and back moves it by less than one EMU |
| Source.PositionOf | test2/pp.py:33-36 | `x_pt` and `y_pt` times 12700 are the shape's `left` and `top` |
| Source.SizeOf | test2/pp.py:37-40 | `width_pt` and `height_pt` times 12700 are the shape's `width` and `height` |
| Deck.Presentation.constructor | test2/pp.py:13 | a new deck has the default 9144000 x 6858000 EMU size and the template's slides |
| Deck.Presentation.SetSlideSize | test2/pp.py:14-15 | sets the width and height; the slides are unchanged |
| Deck.Presentation.DropFirstSlide | test2/pp.py:18-20 | removes the first slide; the size is unchanged |
| Deck.Presentation.AddBlankSlide | test2/pp.py:28 | appends a slide without shapes; the size is unchanged |
| Deck.Presentation.AddShape | test2/pp.py:48-55 | appends the shape to the given slide only; the other slides and the size are unchanged |
| Extraction.ShapeRecord | test2/pp.py:31-57 | a record exists iff the shape has a text frame or is a picture; it carries the name and the point geometry; a text frame wins and gives type `"text"` with the frame text as content, even on a picture; otherwise a picture gives `"image"` without content |
| Extraction.Placeholder | test2/pp.py:48-55 | a placeholder exists iff a record does; it is a text box at the shape's own EMU rectangle reading `[Text Placeholder]` or `[Image Placeholder]` by type |
| Extraction.ExtractJson | test2/pp.py:22-67 | the slide size is copied unchanged; there is one JSON slide per source slide; slide i has number i + 1 and the records of its shapes |
| Extraction.BlankSlides | test2/pp.py:28-55 | there is one blank slide per source slide, holding the placeholders of its shapes |
| Extraction.SlideRecords | test2/pp.py:30-59 | there are at most as many records as shapes; `SlideRecordsMembership` and `SlideRecordsConcat` state which records and in what order |
| Extraction.SlidePlaceholders | test2/pp.py:48-55 | there are at most as many placeholders as shapes; `PlaceholdersMatchRecords` states that they match the records one to one |
| Extraction.ExtractShapesToJson | test2/pp.py:9-67 | the loop returns exactly `ExtractJson`; the new deck has the source size and exactly `BlankSlides`, because the template slides are all removed first |
| Extraction.ExtractSlide | test2/pp.py:28-59 | the shape loop returns the slide's records and appends one slide holding its placeholders; the size is unchanged |
| Extraction.SlideRecordsConcat | test2/pp.py:30-59 | the records of concatenated shape lists are the concatenated records, so source order is kept |
| Extraction.SlideRecordsMembership | test2/pp.py:30-59 | a record is in a slide's list iff some shape of the slide produces it |
| Extraction.DroppedShapeIsInvisible | test2/pp.py:56-57 | a shape with neither a text frame nor a picture type can be removed without changing the records or the placeholders |
| Extraction.SlidePlaceholdersConcat | test2/pp.py:48-55 | the placeholders of concatenated shape lists are the concatenated placeholders |
| Extraction.AllKeptOneRecordEach | test2/pp.py:30-59 | when every shape is kept, there is one record per shape, the k-th for the k-th shape |
| Extraction.PlaceholderOfRecord | test2/pp.py:33-55 | a shape's placeholder is the text box its record's points convert back to |
| Extraction.PlaceholdersMatchRecords | test2/pp.py:33-55 | the blank deck and the JSON agree one to one: the k-th placeholder sits at the EMU geometry of the k-th record and is labelled according to its type |
| ImageMerge.Get | test2/pp1.py:15 | a dictionary lookup is absent iff no entry has the key; otherwise it is the value of an entry with that key |
| ImageMerge.KeysWithin | test2/pp1.py:14-19 | the key loop returns true iff every key of the first dict is found in the second and differs by at most the tolerance |
| ImageMerge.IsMatch | test2/pp1.py:12-20 | `is_match` is true iff every position key and every size key is within the tolerance, inclusive |
| ImageMerge.KeysWithinFirstKeysOnly | test2/pp1.py:14-19 | the loop reads the second dict only at the first dict's keys |
| ImageMerge.IsMatchReadsFirstKeysOnly | test2/pp1.py:14-19 | `is_match` depends on the second pair of dicts only at the keys of the first pair |
| ImageMerge.IsMatchReflexive | test2/pp1.py:12-20 | any geometry matches itself for any tolerance of at least 0 |
| ImageMerge.GeometryMatch | test2/pp1.py:40-47 | on two point geometries, `is_match` is the four absolute differences each within the tolerance |
| ImageMerge.Prefix8 | test2/pp1.py:54 | `hex[:8]` is the first min(8, length) characters |
| ImageMerge.ImageFilename | test2/pp1.py:54 | has no contract of its own, since stating it there makes the proofs about image records too costly; `ImageFilenameRecoversSlide` states what the name carries |
| ImageMerge.ImageFilenameRecoversSlide | test2/pp1.py:54 | the 1-based slide number can be read back from the generated name, and the name ends in `.` plus the extension |
| ImageMerge.IsArchived | test2/pp1.py:98 | has no contract of its own; `IsArchivedListed` spells out the five suffixes, and `ArchiveEntries` states the filter built on it |
| ImageMerge.IsArchivedListed | test2/pp1.py:98 | a name is archived iff its lower-cased form ends in `.jpg`, `.jpeg`, `.png`, `.bmp` or `.gif` |
| ImageMerge.ArchiveEntries | test2/pp1.py:98 | an entry is archived iff it is in the directory and its lower-cased name ends in one of the five extensions |
| ImageMerge.ArchiveEntriesConcat | test2/pp1.py:98 | the filter keeps the directory order |
| ImageMerge.GeneratedNameArchivedIff | test2/pp1.py:98 | a generated image name is archived iff its lower-cased `.ext` is one of `.jpg .jpeg .png .bmp .gif` |
| ImageMerge.ImageRecord | test2/pp1.py:64-76 | the record has type `"image"`, the shape's name and point geometry, no content, and metadata with the content type, the extension, the generated name, the path and the base64 text |
| ImageMerge.PictureRecord | test2/pp1.py:39-89 | a picture yields a record iff it is a picture, its blob is non-empty and the write/read succeeded |
| ImageMerge.NewImages | test2/pp1.py:38-89 | every appended record is an image record with metadata, at most one per shape |
| ImageMerge.WithoutImages | test2/pp1.py:36 | the purge keeps exactly the records whose type is not `"image"` |
| ImageMerge.MergeSlide | test2/pp1.py:33-89 | a processed slide keeps its slide number |
| ImageMerge.MergeSlides | test2/pp1.py:29-89 | the JSON slide count never changes, slide numbers are kept, and JSON slides beyond the source slide count are untouched |
| ImageMerge.FindMatch | test2/pp1.py:79-84 | the `matched` loop is true iff some image record on the slide matches the picture's geometry |
| ImageMerge.UpdateBlankJsonWithImages | test2/pp1.py:29-89 | the in-place update leaves the slide array equal to `MergeSlides` of its old contents |
| ImageMerge.ProcessShape | test2/pp1.py:39-89 | one shape appends its picture record, or nothing; the `matched` flag does not affect the output |
| ImageMerge.ReplaceSlideImages | test2/pp1.py:33-89 | a processed slide becomes its non-image records followed by the new image records; the other slides are unchanged |
| ImageMerge.WithoutImagesConcat | test2/pp1.py:36 | the purge distributes over concatenation, so kept records keep their order |
| ImageMerge.WithoutImagesIdempotent | test2/pp1.py:36 | purging twice is purging once |
| ImageMerge.WithoutImagesOfNewImages | test2/pp1.py:36 | the purge removes every appended image record |
| ImageMerge.MergeSlideReplacesImages | test2/pp1.py:36-86 | the non-image records of a merged slide are the old ones in order, and every image record on it comes from a source picture |
| ImageMerge.NewImagesMembership | test2/pp1.py:38-86 | a record is appended iff some picture of the slide produces it |
| ImageMerge.UnsavedPictureIsSkipped | test2/pp1.py:53-89 | a picture with an empty blob or a failed write adds nothing, and the later shapes are processed as before |
| ImageMerge.AllSavedOneRecordEach | test2/pp1.py:38-86 | when every shape is a saved picture, there is one record per shape, in shape order |
| ImageMerge.MergeIdempotent | test2/pp1.py:29-89 | running the merge again on its own output with the same saves gives the same document |
| ImageMerge.MergeSlideStable | test2/pp1.py:36-86 | a merged slide is a fixed point of the slide merge |
| ImageMerge.MergeSlideTwice | test2/pp1.py:36-86 | merging a slide twice is merging it once |
| Rebuild.RunsText | test2/pp2.py:23 | the runs contribute nothing when none of them has `"text"` |
| Rebuild.RunsTextConcat | test2/pp2.py:23 | the run texts concatenate in run order |
| Rebuild.ParagraphTexts | test2/pp2.py:21-24 | there is one text per paragraph: that paragraph's runs run together |
| Rebuild.TextOf | test2/pp2.py:14-26 | non-empty content is returned as it is; without content, and with no paragraphs or an empty paragraph list, the text is empty; otherwise splitting the text at newlines gives back the paragraph texts, when there is at least one and none holds a newline |
| Rebuild.TextOfContentWins | test2/pp2.py:16-17 | non-empty content is returned, whatever the text properties say |
| Rebuild.ShapeRect | test2/pp2.py:40-43 | each side of the EMU rectangle lies within one EMU of the recorded points times 12700 |
| Rebuild.RebuildShape | test2/pp2.py:39-56 | it fails iff the record is an image without metadata; it adds nothing iff the type is unknown or the file is missing; whatever it adds sits at `ShapeRect`, the `points_to_emu` of the recorded points; a text record gives a text box holding `get_text_from_shape`; a picture has the metadata file name, and that file exists; an image record with metadata whose file exists gives exactly one picture of that file at `ShapeRect` |
| Rebuild.RebuildShapes | test2/pp2.py:38-56 | a slide adds at most one shape per record |
| Rebuild.RebuildSlides | test2/pp2.py:36-56 | on success there is one output slide per JSON slide |
| Rebuild.BuildDeck | test2/pp2.py:28-58 | it succeeds iff every slide rebuilds; the deck then has exactly the document's EMU size, because in exact arithmetic the division by 12700 and the truncation cancel, and holds the rebuilt slides, one per JSON slide |
| Rebuild.BuildPptxFromJson | test2/pp2.py:28-58 | the loop succeeds iff `BuildDeck` does; it then sets the converted size and appends exactly the rebuilt slides after the template's |
| Rebuild.BuildSlide | test2/pp2.py:38-56 | the shape loop succeeds iff `RebuildShapes` does; it then appends exactly those shapes to the last slide; the size is unchanged |
| Rebuild.RebuildShapesConcat | test2/pp2.py:38-56 | the records of a slide can be rebuilt piecewise |
| Rebuild.RebuildShapesFailsAt | test2/pp2.py:48 | a record without image metadata fails the slide, whatever follows it |
| Rebuild.RebuildSlidesConcat | test2/pp2.py:36-56 | the slides can be rebuilt piecewise |
| Rebuild.RebuildSlidesFailsAt | test2/pp2.py:36-48 | a failing slide fails the rebuild, whatever follows it |
| Rebuild.RebuildShapesSucceedsIff | test2/pp2.py:38-48 | a slide rebuilds iff each of its image records has metadata |
| Rebuild.RebuildSucceedsIff | test2/pp2.py:36-48 | the rebuild succeeds iff every image record on every slide has metadata; file existence has no bearing on it |
| Rebuild.RebuildSlidesEach | test2/pp2.py:36-56 | on success, output slide i is what JSON slide i rebuilds to |
| Rebuild.RebuildSlidesOf | test2/pp2.py:36-56 | when every slide rebuilds, the output is those shape lists in slide order |
| Rebuild.RebuildShapesSkips | test2/pp2.py:47-56 | a record that adds nothing (an unknown type or a missing file) can be dropped without changing the slide |
| Rebuild.RebuildShapesMembership | test2/pp2.py:38-56 | on success, a shape is on the slide iff some record of the slide adds exactly that shape, so every added shape sits at its own record's `ShapeRect` |
| Rebuild.RebuildShapesOneEach | test2/pp2.py:38-56 | when every record adds one shape, the slide has one shape per record, the k-th being the k-th record's shape at that record's `ShapeRect` |
| Pipeline.RecordRect | test2/pp2.py:40-43 | an extracted record's geometry rebuilds to the source shape's EMU rectangle, exactly in real arithmetic |
| Pipeline.TextRecordOfShape | test2/pp2.py:39-46 | one source shape's record, after the image purge, rebuilds to its text box if it has a text frame, and to nothing otherwise |
| Pipeline.TextRecordsRebuild | test2/pp2.py:38-46 | the text records left after the merge rebuild to the source's text boxes, with the same text and geometry, in order |
| Pipeline.ImageRecordsRebuild | test2/pp2.py:47-54 | the appended image records rebuild to the saved pictures whose files are present, at their source geometry, in order |
| Pipeline.MergedSlideRebuilds | test2/pp1.py:36-86 | each merged slide rebuilds to its source text boxes followed by its present pictures |
| Pipeline.RoundTrip | test2/pp2.py:32-56 | extraction, merge and rebuild never fail, and keep the slide size and slide count; slide i is its source text boxes followed by its present pictures |
| Text.ReplaceCharAbsent | texcode/p.py:8 | `replace` of a character that does not occur leaves the text unchanged |
| Text.ReplaceCharChars | texcode/p.py:8 | the result only holds characters of the text other than the pattern, or characters of the substitute |
| Text.ReplaceCharConcat | texcode/p.py:8 | `replace` of a character distributes over concatenation |
| Text.SplitJoin | test2/pp2.py:25 | joining pieces without newlines and splitting at newlines gives the pieces back |
| Text.LowerConcat | test2/pp1.py:98 | lower-casing distributes over concatenation |
| Text.StripEmptyIff | texcode/p.py:89 | `strip()` is empty iff the text is whitespace only |
| Text.ParseNatToString | test2/pp1.py:54 | the decimal text of a number reads back as that number |
| Latex.PatternsAreSpecial | texcode/p.py:8-10 | the ten steps replace the ten special characters, in order |
| Latex.EscapeLatex | texcode/p.py:7-10 | text without any of the ten special characters is unchanged; `EscapeLatexIsPerChar` states what it does to the rest |
| Latex.EscapeChar | texcode/p.py:7-10 | the per-character table: a character is left as itself iff it is not special |
| Latex.EscapeEach | texcode/p.py:7-10 | escaping character by character never shortens the text |
| Latex.EscapeLatexConcat | texcode/p.py:7-10 | the chain distributes over concatenation |
| Latex.EscapeHit | texcode/p.py:8-10 | a character that only step i replaces, and whose replacement no later step touches, becomes that replacement |
| Latex.StepsIndependent | texcode/p.py:8-10 | no two steps replace the same character, and only the backslash's replacement holds a character that a later step replaces |
| Latex.EscapeCommand | texcode/p.py:9-10 | after the first step, a plain command followed by `{}` has both braces escaped and nothing else changed |
| Latex.EscapeBackslash | texcode/p.py:8-9 | a backslash becomes `\textbackslash\{\}`, because the later brace steps escape its braces |
| Latex.EscapeLatexChar | texcode/p.py:7-10 | the chain on one character is that character's table entry |
| Latex.EscapeLatexIsPerChar | texcode/p.py:7-10 | the ordered chain equals escaping each character on its own |
| Latex.EscapeTildeCaret | texcode/p.py:10 | `~` becomes `\textasciitilde{}` and `^` becomes `\^{}`, with bare braces |
| Latex.EscapeLatexEmptyIff | texcode/p.py:63-65 | escaping never shortens, so the escaped text is empty iff the run text is |
| Latex.AlignmentEnv | texcode/p.py:12-19 | CENTER gives `center`, RIGHT `flushright` and LEFT `flushleft`, each iff; every other value, None included, gives `justify` |
| Latex.HighlightMapDomain | texcode/p.py:22-34 | the seven Word colours outside the map have no LaTeX colour |
| Latex.StyleNesting | texcode/p.py:67-73 | bold, italic and underline nest with bold innermost, each closed by one brace |
| Latex.WrapRun | texcode/p.py:67-84 | all five wrappers nest: bold innermost, then italic, underline and colour, with highlight outermost, each closed by one brace |
| Latex.RunLatex | texcode/p.py:63-84 | a run gives nothing iff its text is empty; otherwise it gives its escaped text inside its wrappers |
| Latex.UnmappedHighlightIgnored | texcode/p.py:81-84 | a highlight colour outside the map is the same as no highlight |
| Latex.LineParts | texcode/p.py:62-86 | a paragraph has at most one piece per run; its contents are stated by `LinePartsConcat`, `LinePartsOne` and `EmptyRunDropped` |
| Latex.LinePartsConcat | texcode/p.py:62-86 | the pieces of two run lists in a row are the pieces of the first followed by those of the second, so pieces keep run order |
| Latex.LinePartsOne | texcode/p.py:63-86 | a run with empty text gives no piece; any other run gives exactly its opening wrappers, its escaped text and its closing braces |
| Latex.EmptyRunDropped | texcode/p.py:63-66 | a run with empty text contributes nothing wherever it stands among other runs |
| Latex.Entries | texcode/p.py:58-92 | there is exactly one entry per paragraph, in paragraph order |
| Latex.DocumentLines | texcode/p.py:39-94 | the lines are the 16-line preamble, then one entry per paragraph in order, then `\end{document}` |
| Latex.ParagraphEntry | texcode/p.py:88-92 | the entry is `\vspace{1em}` iff the space-joined pieces are whitespace only; otherwise it is `\begin{env}`, a newline, the joined pieces, a newline and `\end{env}`, with env the alignment's environment |
| Latex.EmptyRunsGiveBlank | texcode/p.py:62-92 | a paragraph whose runs all have empty text is a blank paragraph |
| Latex.EmptyRunsNoParts | texcode/p.py:62-86 | runs with empty text contribute no pieces |
| Latex.DocxToLatex | texcode/p.py:36-97 | the text written is the document lines joined by newlines |
| Latex.ConvertParagraph | texcode/p.py:59-92 | the paragraph loop body yields exactly the paragraph's entry |
| Latex.ConvertRuns | texcode/p.py:62-86 | the run loop collects exactly the non-empty run pieces, in run order |
| Latex.WrapText | texcode/p.py:67-84 | the wrapping statements produce exactly the nested wrappers of the run |

## Left out

- File, archive and JSON I/O are not modelled: `open`, `json.load`/`dump`, `os.makedirs`, `os.listdir`, `zipfile` and `prs.save`. Which image files exist is the parameter `fileExists`. The directory listing is a sequence of names. The documents are values.
- `extract_images_from_zip` (test2/pp2.py:10-12) only unpacks an archive, so it is not modelled.
- `print` calls and progress messages are not modelled.
- `uuid.uuid4()`, the picture write and read-back, `os.path.abspath` and `base64.b64encode` are not modelled. They are the parameter `io`. For each slide and shape it gives either the hex identifier, path and base64 text, or a failure (the `except` branch). `thumbnail_base64` and `saved_path` are opaque text.
- The python-pptx and python-docx object models are not modelled. A source shape is a record with its name, EMU geometry, whether it has a text frame, whether its shape type is PICTURE, its text, and its image (extension, content type and bytes). A Word run is its text, three flags, an optional six-hex-digit colour and an optional highlight.
- `run.bold`, `run.italic` and `run.underline` are booleans that stand for the truth value the `if` tests. `None`, meaning inherited, is false.
- `RGBColor.__str__` is the given hex text.
- The template's own slides are an input. The slide layout is not: every slide added with `slide_layouts[6]` is assumed to start empty, as the blank layout of the default template does. A source deck whose seventh layout carries placeholders would put them on the blank deck's slides, and one with fewer than seven layouts makes `extract_shapes_to_json` raise `IndexError` (test2/pp.py:11). Neither is modelled.
- Floating point is not modelled: `/ 12700.0` and `pt * 12700` are exact real arithmetic, so rounding effects of IEEE doubles are not captured. `Units.EmuRoundTrip`, the size stated by `Rebuild.BuildDeck`, `Pipeline.RecordRect` and `Pipeline.RoundTrip` are exact only over the reals. With doubles, `int(e / 12700.0 * 12700)` can come back one EMU low, toward zero: 29 EMU becomes 28, and so do some other values such as 53 and 58.
- `str.lower` is ASCII-only.
- Rebuild.TextOf: when some paragraph's text holds a newline, splitting the joined text no longer gives back the paragraphs, and the contract states nothing about the text in that case beyond its being the newline join the function computes.
- `strip()` strips the characters Python counts as whitespace, as listed in `Text.IsSpace`.
- A JSON `null` and an absent key are both `None` in the interchange datatypes. This loses an exception path of `get_text_from_shape` (test2/pp2.py:21-23): `"paragraphs": null`, `"runs": null` or a run's `"text": null` makes it raise `TypeError`, whereas `Rebuild.TextOf` treats each as absent and returns text.
- The two top-level dimensions are integers, as the extraction writes them.
- Python's dictionary order is the sequence order of `ImageMerge.Dict`, with distinct keys. A missing key is an error that `is_match` returns; the merge never raises it, since both dictionaries have the same keys.
- After an aborted rebuild (an image record without metadata), the model returns the error and the deck as it stood. The script saves nothing then, and the model says nothing about that partial deck.
- Rebuild.RebuildShapes: text boxes and pictures are added in record order. After the merge that order is the text records then the images, and `Pipeline.RoundTrip` states it that way.
- Latex.DocxToLatex: the per-paragraph body and the run-wrapping statements are the separate methods `ConvertParagraph` and `WrapText`. Their statements are those of the loop.
- ImageMerge.ReplaceSlideImages: the per-shape body is the separate method `ProcessShape`, with the same statements.
- `ppt_pdf_ppt/pp.py` and `texcode/final.py` are not part of this model. Nor is any other file of the repository outside the four scripts above.
