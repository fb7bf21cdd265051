/** The text core of the Word-to-LaTeX converter: escaping run text, the
    alignment environment of a paragraph, the per-run style wrappers and the
    assembly of the document from its paragraphs. */
module Latex {
  import opened Wrappers
  import opened Text
  import opened Seqs

  // ---- Escaping ----

  /** One `replace` call of `escape_latex`: a character and what is put in
      its place. */
  datatype Replacement = Replacement(pattern: char, substitute: string)

  /** The chained `replace` calls of `escape_latex`, in the order they run
      (a command followed by an empty argument is written as the two
      parts). */
  const EscapeSteps: seq<Replacement> := [
    Replacement('\\', "\\textbackslash" + "{}"),
    Replacement('&', "\\&"),
    Replacement('%', "\\%"),
    Replacement('$', "\\$"),
    Replacement('#', "\\#"),
    Replacement('_', "\\_"),
    Replacement('{', "\\{"),
    Replacement('}', "\\}"),
    Replacement('~', "\\textasciitilde" + "{}"),
    Replacement('^', "\\^" + "{}")
  ]

  /** The replacements applied one after the other, each to the result of
      the one before. */
  function ReplaceEach(t: string, steps: seq<Replacement>): string
    decreases |steps|
  {
    if steps == [] then t else ReplaceEach(ReplaceChar(t, steps[0].pattern, steps[0].substitute), steps[1..])
  }

  /** `escape_latex`: text without any of the ten special characters is left
      as it is. */
  function EscapeLatex(text: string): (r: string)
    ensures (forall k :: 0 <= k < |text| ==> !IsSpecial(text[k])) ==> r == text
  {
    ChainSkipsPlain(text);
    ReplaceEach(text, EscapeSteps)
  }

  /** The ten characters the steps replace, in step order. */
  const SpecialChars: string := "\\&%$#_{}~^"

  predicate IsSpecial(c: char) {
    c in SpecialChars
  }

  lemma PatternsAreSpecial()
    ensures |EscapeSteps| == |SpecialChars|
    ensures forall k :: 0 <= k < |EscapeSteps| ==> EscapeSteps[k].pattern == SpecialChars[k]
  {
  }

  /** What a single character becomes once the whole chain has run: the
      backslash's replacement has its braces escaped by the later steps, while
      the tilde's and the caret's keep theirs. */
  function EscapeChar(c: char): (r: string)
    ensures |r| >= 1
    ensures !IsSpecial(c) <==> r == [c]
  {
    match c
    case '\\' => "\\textbackslash" + "\\{\\}"
    case '&' => "\\&"
    case '%' => "\\%"
    case '$' => "\\$"
    case '#' => "\\#"
    case '_' => "\\_"
    case '{' => "\\{"
    case '}' => "\\}"
    case '~' => "\\textasciitilde" + "{}"
    case '^' => "\\^" + "{}"
    case _ => [c]
  }

  /** Escaping character by character, as a reference for the chain. */
  function EscapeEach(s: string): (r: string)
    ensures |r| >= |s|
  {
    if s == [] then [] else EscapeEach(s[..|s| - 1]) + EscapeChar(s[|s| - 1])
  }

  /** Leading steps whose characters do not occur in the text leave it
      alone. */
  lemma {:induction false} ReplaceEachSkip(t: string, steps: seq<Replacement>, i: nat)
    requires i <= |steps|
    requires forall j :: 0 <= j < i ==> steps[j].pattern !in t
    ensures ReplaceEach(t, steps) == ReplaceEach(t, steps[i..])
  {
    if i > 0 {
      ReplaceCharAbsent(t, steps[0].pattern, steps[0].substitute);
      ReplaceEachSkip(t, steps[1..], i - 1);
      assert steps[1..][i - 1..] == steps[i..];
    }
  }

  /** The chain distributes over concatenation, since every step does. */
  lemma {:induction false} ReplaceEachConcat(a: string, b: string, steps: seq<Replacement>)
    ensures ReplaceEach(a + b, steps) == ReplaceEach(a, steps) + ReplaceEach(b, steps)
    decreases |steps|
  {
    if steps != [] {
      var c, t := steps[0].pattern, steps[0].substitute;
      ReplaceCharConcat(a, b, c, t);
      ReplaceEachConcat(ReplaceChar(a, c, t), ReplaceChar(b, c, t), steps[1..]);
    }
  }

  lemma EscapeLatexConcat(a: string, b: string)
    ensures EscapeLatex(a + b) == EscapeLatex(a) + EscapeLatex(b)
  {
    ReplaceEachConcat(a, b, EscapeSteps);
  }

  /** The chain leaves text without special characters alone. */
  lemma ChainSkipsPlain(s: string)
    ensures (forall k :: 0 <= k < |s| ==> !IsSpecial(s[k])) ==> ReplaceEach(s, EscapeSteps) == s
  {
    if forall k :: 0 <= k < |s| ==> !IsSpecial(s[k]) {
      PatternsAreSpecial();
      ReplaceEachSkip(s, EscapeSteps, 10);
    }
  }

  lemma ReplaceOne(d: char, c: char, t: string)
    ensures ReplaceChar([d], c, t) == if d == c then t else [d]
  {
    assert [d][1..] == [];
  }

  /** A character handled by step `i`, which no earlier step touches, and
      whose replacement no later step touches. */
  lemma EscapeHit(c: char, i: nat)
    requires i < |EscapeSteps| && EscapeSteps[i].pattern == c
    requires forall j :: 0 <= j < i ==> EscapeSteps[j].pattern != c
    requires forall j :: i < j < |EscapeSteps| ==> EscapeSteps[j].pattern !in EscapeSteps[i].substitute
    ensures EscapeLatex([c]) == EscapeSteps[i].substitute
  {
    var t := EscapeSteps[i].substitute;
    ReplaceEachSkip([c], EscapeSteps, i);
    ReplaceOne(c, c, t);
    ReplaceEachSkip(t, EscapeSteps[i + 1..], |EscapeSteps| - i - 1);
    assert EscapeSteps[i + 1..][|EscapeSteps| - i - 1..] == [];
  }

  /** The opening-brace step on an empty argument. */
  lemma OpenBraceOnArgument()
    ensures ReplaceChar("{}", '{', "\\{") == "\\{}"
  {
    ReplaceOne('}', '{', "\\{");
    assert "{}"[1..] == "}";
  }

  /** The closing-brace step on the escaped opening brace and the bare
      closing one. */
  lemma CloseBraceOnArgument()
    ensures ReplaceChar("\\{}", '}', "\\}") == "\\{\\}"
  {
    ReplaceOne('}', '}', "\\}");
    assert "\\{}"[1..] == "{}" && "{}"[1..] == "}";
  }

  /** The two brace steps on a command followed by an empty argument. */
  lemma BraceSteps(w: string)
    requires '{' !in w && '}' !in w
    ensures ReplaceChar(w + "{}", '{', "\\{") == w + "\\{}"
    ensures ReplaceChar(w + "\\{}", '}', "\\}") == w + "\\{\\}"
  {
    ReplaceCharAbsent(w, '{', "\\{");
    ReplaceCharConcat(w, "{}", '{', "\\{");
    OpenBraceOnArgument();
    ReplaceCharAbsent(w, '}', "\\}");
    ReplaceCharConcat(w, "\\{}", '}', "\\}");
    CloseBraceOnArgument();
  }

  /** The two brace steps as steps of the chain. */
  lemma EscapeBraceSteps(w: string)
    requires '{' !in w && '}' !in w
    ensures ReplaceEach(w + "{}", EscapeSteps[6..]) == ReplaceEach(w + "\\{\\}", EscapeSteps[8..])
  {
    BraceSteps(w);
    assert EscapeSteps[6..][1..] == EscapeSteps[7..] && EscapeSteps[7..][1..] == EscapeSteps[8..];
  }

  /** None of the characters of steps 1 to 5 occurs in a text made of two
      parts without them. */
  lemma AmpersandToUnderscoreAbsent(w: string, arg: string)
    requires '&' !in w && '%' !in w && '$' !in w && '#' !in w && '_' !in w
    requires '&' !in arg && '%' !in arg && '$' !in arg && '#' !in arg && '_' !in arg
    ensures forall j :: 0 <= j < 5 ==> EscapeSteps[1..][j].pattern !in w + arg
  {
    forall j | 0 <= j < 5
      ensures EscapeSteps[1..][j].pattern !in w + arg
    {
      assert EscapeSteps[1..][j] == EscapeSteps[j + 1];
    }
  }

  /** Steps 1 to 5 leave a text without their characters alone. */
  lemma SkipAmpersandToUnderscore(w: string, arg: string)
    requires '&' !in w && '%' !in w && '$' !in w && '#' !in w && '_' !in w
    requires '&' !in arg && '%' !in arg && '$' !in arg && '#' !in arg && '_' !in arg
    ensures ReplaceEach(w + arg, EscapeSteps[1..]) == ReplaceEach(w + arg, EscapeSteps[6..])
  {
    AmpersandToUnderscoreAbsent(w, arg);
    ReplaceEachSkip(w + arg, EscapeSteps[1..], 5);
    DropDrop(EscapeSteps, 1, 5);
  }

  /** The tilde and caret steps leave a text without those characters
      alone. */
  lemma SkipTildeCaret(w: string, arg: string)
    requires '~' !in w && '^' !in w && '~' !in arg && '^' !in arg
    ensures ReplaceEach(w + arg, EscapeSteps[8..]) == w + arg
  {
    var tail := EscapeSteps[8..];
    assert tail == [Replacement('~', "\\textasciitilde" + "{}"), Replacement('^', "\\^" + "{}")];
    ReplaceEachSkip(w + arg, tail, 2);
    assert tail[2..] == [];
  }

  /** Every step after the first on a command without special characters
      followed by an empty argument: only the brace steps act, and escape
      both braces. */
  lemma EscapeCommand(w: string)
    requires '&' !in w && '%' !in w && '$' !in w && '#' !in w && '_' !in w
    requires '{' !in w && '}' !in w && '~' !in w && '^' !in w
    ensures ReplaceEach(w + "{}", EscapeSteps[1..]) == w + "\\{\\}"
  {
    SkipTildeCaret(w, "\\{\\}");
    SkipAmpersandToUnderscore(w, "{}");
    EscapeBraceSteps(w);
  }

  /** The backslash's command name holds none of the characters the later
      steps replace. */
  lemma BackslashCommandPlain()
    ensures var w := "\\textbackslash";
            '&' !in w && '%' !in w && '$' !in w && '#' !in w && '_' !in w
            && '{' !in w && '}' !in w && '~' !in w && '^' !in w
  {
    var w := "\\textbackslash";
    assert forall k :: 0 <= k < |w| ==> w[k] == '\\' || 'a' <= w[k] <= 'z';
  }

  /** The backslash: its replacement's braces are escaped by the two brace
      steps that follow. */
  lemma EscapeBackslash(c: char)
    requires c == '\\'
    ensures EscapeLatex([c]) == "\\textbackslash" + "\\{\\}"
  {
    var w := "\\textbackslash";
    BackslashCommandPlain();
    ReplaceOne(c, c, EscapeSteps[0].substitute);
    assert EscapeSteps[0].substitute == w + "{}";
    EscapeCommand(w);
  }

  /** No two steps replace the same character, and no step after the first
      produces a character a later step replaces: only the backslash's
      replacement is touched again. */
  lemma StepsIndependent()
    ensures forall j, k :: 0 <= j < k < |EscapeSteps| ==> EscapeSteps[j].pattern != EscapeSteps[k].pattern
    ensures forall i, j :: 1 <= i < j < |EscapeSteps| ==> EscapeSteps[j].pattern !in EscapeSteps[i].substitute
  {
  }

  /** Each step after the first gives the table's escape for its character. */
  lemma EscapeCharTable()
    ensures forall i :: 1 <= i < |EscapeSteps| ==> EscapeChar(EscapeSteps[i].pattern) == EscapeSteps[i].substitute
  {
    forall i | 1 <= i < |EscapeSteps|
      ensures EscapeChar(EscapeSteps[i].pattern) == EscapeSteps[i].substitute
    {
      var step := EscapeSteps[i];
      assert step == EscapeSteps[i];
    }
  }

  /** The chain on one character is the character's escape. */
  lemma EscapeLatexChar(c: char)
    ensures EscapeLatex([c]) == EscapeChar(c)
  {
    PatternsAreSpecial();
    if c == '\\' {
      EscapeBackslash(c);
    } else if IsSpecial(c) {
      var i :| 0 <= i < |SpecialChars| && SpecialChars[i] == c;
      StepsIndependent();
      EscapeHit(c, i);
      EscapeCharTable();
    } else {
      assert forall k :: 0 <= k < |[c]| ==> !IsSpecial([c][k]);
    }
  }

  /** The ordered chain of replacements escapes each character on its own. */
  lemma {:induction false} EscapeLatexIsPerChar(s: string)
    ensures EscapeLatex(s) == EscapeEach(s)
  {
    if s == [] {
      ReplaceEachSkip(s, EscapeSteps, 10);
    } else {
      var n := |s| - 1;
      assert s == s[..n] + [s[n]];
      EscapeLatexConcat(s[..n], [s[n]]);
      EscapeLatexIsPerChar(s[..n]);
      EscapeLatexChar(s[n]);
    }
  }

  /** The tilde and the caret come after the brace steps, so their
      replacements keep bare braces. */
  lemma EscapeTildeCaret()
    ensures EscapeLatex("~") == "\\textasciitilde{}"
    ensures EscapeLatex("^") == "\\^{}"
  {
    EscapeLatexChar('~');
    EscapeLatexChar('^');
  }

  /** Escaping never shortens the text, so it is empty exactly when the run
      text is. */
  lemma EscapeLatexEmptyIff(s: string)
    ensures |EscapeLatex(s)| >= |s|
    ensures EscapeLatex(s) == [] <==> s == []
  {
    EscapeLatexIsPerChar(s);
  }

  // ---- Alignment and highlight ----

  /** `WD_ALIGN_PARAGRAPH`. */
  datatype Alignment = Left | Center | Right | Justify | Distribute | JustifyMed | JustifyHi | JustifyLow | ThaiJustify

  /** `get_alignment_env`; `None` is an alignment inherited from the style. */
  function AlignmentEnv(alignment: Option<Alignment>): (env: string)
    ensures env == "center" <==> alignment == Some(Center)
    ensures env == "flushright" <==> alignment == Some(Right)
    ensures env == "flushleft" <==> alignment == Some(Left)
    ensures env == "justify" <==> alignment !in {Some(Center), Some(Right), Some(Left)}
  {
    match alignment
    case Some(Center) => "center"
    case Some(Right) => "flushright"
    case Some(Left) => "flushleft"
    case _ => "justify"
  }

  /** `WD_COLOR_INDEX`. */
  datatype ColorIndex = Auto | Black | Blue | Turquoise | BrightGreen | Pink | Red | Yellow | White
                      | DarkBlue | Teal | Green | Violet | DarkRed | DarkYellow | Gray50 | Gray25

  /** `HIGHLIGHT_MAP`. */
  const HighlightMap: map<ColorIndex, string> := map[
    Yellow := "yellow",
    Turquoise := "cyan",
    Pink := "pink",
    Green := "lime",
    Blue := "cyan",
    Red := "red",
    Gray25 := "lightgray",
    DarkRed := "red",
    DarkBlue := "blue",
    DarkYellow := "orange"
  ]

  /** The seven Word colours without a LaTeX counterpart are not highlighted. */
  lemma HighlightMapDomain()
    ensures Auto !in HighlightMap && Black !in HighlightMap && BrightGreen !in HighlightMap
            && White !in HighlightMap && Teal !in HighlightMap && Violet !in HighlightMap
            && Gray50 !in HighlightMap
  {
  }

  // ---- Runs ----

  /** The part of a Word run the converter reads: its text, whether bold,
      italic and underline are set, its RGB colour as six hex digits when it
      has one, and its highlight colour when it has one. */
  datatype DocRun = DocRun(
    text: string,
    bold: bool,
    italic: bool,
    underline: bool,
    color: Option<string>,
    highlight: Option<ColorIndex>)

  /** The LaTeX of one run: nothing when its text is empty (so its escaped
      text is), otherwise its escaped text nested in its wrappers. */
  function RunLatex(run: DocRun): (r: Option<string>)
    ensures r.None? <==> run.text == []
    ensures r.Some? ==> r.value == Opening(run) + EscapeLatex(run.text) + Closing(WrapCount(run))
  {
    var text := EscapeLatex(run.text);
    EscapeLatexEmptyIff(run.text);
    if text == [] then None else Some(WrapRun(run, text))
  }

  /** The wrappers of a run around its escaped text: bold, italic,
      underline, colour, then highlight when its colour is in the map. They
      nest: the text sits inside the opening commands, the bold one innermost
      and the highlight outermost, each closed by one brace. */
  function WrapRun(run: DocRun, text: string): (r: string)
    ensures r == Opening(run) + text + Closing(WrapCount(run))
  {
    var hl := run.highlight.Some? && run.highlight.value in HighlightMap;
    var styled := StyleWraps(run, text);
    var coloured := if run.color.Some? then "\\textcolor[HTML]{" + run.color.value + "}{" + styled + "}" else styled;
    var n := (if run.bold then 1 else 0) + (if run.italic then 1 else 0) + (if run.underline then 1 else 0);
    var openC := if run.color.Some? then "\\textcolor[HTML]{" + run.color.value + "}{" else "";
    var openH := if hl then "\\sethlcolor{" + HighlightMap[run.highlight.value] + "}\\hl{" else "";
    StyleNesting(run, text);
    WrapStep(run.color.Some?, openC, StyleOpening(run), text, n);
    WrapStep(hl, openH, (if run.color.Some? then openC else "") + StyleOpening(run), text,
             n + (if run.color.Some? then 1 else 0));
    if hl then openH + coloured + "}" else coloured
  }

  /** The opening commands of a run's wrappers, the outermost first. */
  function Opening(run: DocRun): string {
    (if run.highlight.Some? && run.highlight.value in HighlightMap
     then "\\sethlcolor{" + HighlightMap[run.highlight.value] + "}\\hl{" else "")
    + ((if run.color.Some? then "\\textcolor[HTML]{" + run.color.value + "}{" else "")
       + StyleOpening(run))
  }

  /** How many wrappers a run gets. */
  function WrapCount(run: DocRun): nat {
    (if run.bold then 1 else 0) + (if run.italic then 1 else 0) + (if run.underline then 1 else 0)
    + (if run.color.Some? then 1 else 0)
    + (if run.highlight.Some? && run.highlight.value in HighlightMap then 1 else 0)
  }

  function Closing(n: nat): (r: string)
    ensures |r| == n && forall k :: 0 <= k < n ==> r[k] == '}'
  {
    if n == 0 then "" else Closing(n - 1) + "}"
  }

  lemma ClosingSucc(n: nat)
    ensures Closing(n + 1) == Closing(n) + "}"
  {
  }

  /** The innermost optional wrapper. */
  lemma WrapFirst(wrap: bool, open: string, e: string)
    ensures (if wrap then open + e + "}" else e) == (if wrap then open else "") + e + Closing(if wrap then 1 else 0)
  {
    assert "" + e + "" == e;
  }

  /** One optional wrapper around text already nested in `inner` wrappers. */
  lemma WrapStep(wrap: bool, open: string, inner: string, e: string, n: nat)
    ensures (if wrap then open + (inner + e + Closing(n)) + "}" else inner + e + Closing(n))
            == (if wrap then open else "") + inner + e + Closing(n + (if wrap then 1 else 0))
  {
    ClosingSucc(n);
  }

  /** The bold, italic and underline wrappers of a run, bold innermost. */
  function StyleWraps(run: DocRun, e: string): string {
    var t1 := if run.bold then "\\textbf{" + e + "}" else e;
    var t2 := if run.italic then "\\textit{" + t1 + "}" else t1;
    if run.underline then "\\uline{" + t2 + "}" else t2
  }

  function StyleOpening(run: DocRun): string {
    (if run.underline then "\\uline{" else "")
    + ((if run.italic then "\\textit{" else "") + (if run.bold then "\\textbf{" else ""))
  }

  lemma StyleNesting(run: DocRun, e: string)
    ensures StyleWraps(run, e)
            == StyleOpening(run) + e
               + Closing((if run.bold then 1 else 0) + (if run.italic then 1 else 0) + (if run.underline then 1 else 0))
  {
    var b := if run.bold then 1 else 0;
    var i := if run.italic then 1 else 0;
    var t1 := if run.bold then "\\textbf{" + e + "}" else e;
    var o1 := if run.bold then "\\textbf{" else "";
    WrapFirst(run.bold, "\\textbf{", e);
    var t2 := if run.italic then "\\textit{" + t1 + "}" else t1;
    WrapStep(run.italic, "\\textit{", o1, e, b);
    var o2 := (if run.italic then "\\textit{" else "") + o1;
    WrapStep(run.underline, "\\uline{", o2, e, b + i);
  }

  /** A run that has a highlight but one outside the map is not highlighted. */
  lemma UnmappedHighlightIgnored(run: DocRun)
    requires run.highlight.Some? && run.highlight.value !in HighlightMap
    ensures RunLatex(run) == RunLatex(run.(highlight := None))
  {
  }

  // ---- Paragraphs and the document ----

  /** A Word paragraph: its alignment and its runs. */
  datatype DocParagraph = DocParagraph(alignment: Option<Alignment>, runs: seq<DocRun>)

  /** The non-empty run pieces of a paragraph, in run order. */
  function LineParts(runs: seq<DocRun>): (r: seq<string>)
    ensures |r| <= |runs|
  {
    if runs == [] then [] else LineParts(runs[..|runs| - 1]) + RunLatex(runs[|runs| - 1]).ToSeq()
  }

  /** The pieces of concatenated runs are the concatenated pieces, so the
      pieces keep run order. */
  lemma {:induction false} LinePartsConcat(a: seq<DocRun>, b: seq<DocRun>)
    ensures LineParts(a + b) == LineParts(a) + LineParts(b)
  {
    if b == [] {
      assert a + b == a;
    } else {
      var n := |b| - 1;
      var t := RunLatex(b[n]).ToSeq();
      assert (a + b)[..|a + b| - 1] == a + b[..n];
      assert (a + b)[|a + b| - 1] == b[n];
      assert LineParts(a + b) == LineParts(a + b[..n]) + t;
      LinePartsConcat(a, b[..n]);
      assert LineParts(b) == LineParts(b[..n]) + t;
      AppendAssoc(LineParts(a), LineParts(b[..n]), t);
    }
  }

  /** A single run gives its wrapped escaped text, or nothing when its text
      is empty. */
  lemma LinePartsOne(run: DocRun)
    ensures run.text == [] ==> LineParts([run]) == []
    ensures run.text != [] ==> LineParts([run]) == [Opening(run) + EscapeLatex(run.text) + Closing(WrapCount(run))]
  {
    assert [run][..0] == [];
  }

  /** A run with empty text contributes nothing wherever it stands: dropping
      it from between any runs leaves the pieces unchanged. */
  lemma EmptyRunDropped(p: seq<DocRun>, x: DocRun, q: seq<DocRun>)
    requires x.text == []
    ensures LineParts(p + [x] + q) == LineParts(p + q)
  {
    LinePartsConcat(p + [x], q);
    LinePartsConcat(p, [x]);
    LinePartsOne(x);
    LinePartsConcat(p, q);
    assert LineParts(p) + [] == LineParts(p);
  }

  const BlankParagraph: string := "\\vspace{1em}"

  /** The entry one paragraph adds to the document: the blank-paragraph line
      exactly when its pieces joined by spaces are whitespace only; otherwise
      the joined line wrapped in its alignment environment. */
  function ParagraphEntry(p: DocParagraph): (r: string)
    ensures r == BlankParagraph <==> AllSpace(Join(LineParts(p.runs), " "))
    ensures !AllSpace(Join(LineParts(p.runs), " ")) ==>
              r == "\\begin{" + AlignmentEnv(p.alignment) + "}\n" + Join(LineParts(p.runs), " ")
                   + "\n\\end{" + AlignmentEnv(p.alignment) + "}"
  {
    LineEntry(Join(LineParts(p.runs), " "), AlignmentEnv(p.alignment))
  }

  /** Every character of the line is whitespace. */
  predicate AllSpace(line: string) {
    forall k :: 0 <= k < |line| ==> IsSpace(line[k])
  }

  /** The entry for a paragraph's joined line in environment `env`. */
  function LineEntry(fullLine: string, env: string): (r: string)
    ensures r == BlankParagraph <==> AllSpace(fullLine)
    ensures !AllSpace(fullLine) ==> r == "\\begin{" + env + "}\n" + fullLine + "\n\\end{" + env + "}"
  {
    StripEmptyIff(fullLine);
    if Strip(fullLine) != [] then
      var entry := "\\begin{" + env + "}\n" + fullLine + "\n\\end{" + env + "}";
      assert entry[1] == 'b';
      entry
    else BlankParagraph
  }

  /** `latex_lines` before the paragraphs. */
  const Preamble: seq<string> := [
    "\\documentclass[12pt]{article}",
    "\\usepackage[utf8]{inputenc}",
    "\\usepackage{xcolor}",
    "\\usepackage{soul}",
    "\\usepackage{geometry}",
    "\\usepackage{setspace}",
    "\\usepackage{ulem}",
    "\\usepackage{hyperref}",
    "\\usepackage{ragged2e}",
    "\\geometry{margin=1in}",
    "\\title{Converted Document}",
    "\\author{}",
    "\\date{}",
    "\\begin{document}",
    "\\maketitle",
    "\\noindent"
  ]

  const EndDocument: string := "\\end{document}"

  function Entries(paras: seq<DocParagraph>): (r: seq<string>)
    ensures |r| == |paras|
    ensures forall i :: 0 <= i < |paras| ==> r[i] == ParagraphEntry(paras[i])
  {
    seq(|paras|, i requires 0 <= i < |paras| => ParagraphEntry(paras[i]))
  }

  lemma EntriesSnoc(paras: seq<DocParagraph>, p: DocParagraph)
    ensures Entries(paras + [p]) == Entries(paras) + [ParagraphEntry(p)]
  {
    assert forall i :: 0 <= i < |paras| ==> (paras + [p])[i] == paras[i];
  }

  /** `latex_lines` at the end: the sixteen preamble lines, one entry per
      paragraph in order, and the closing line. */
  function DocumentLines(paras: seq<DocParagraph>): (r: seq<string>)
    ensures |r| == |Preamble| + |paras| + 1
    ensures r[..|Preamble|] == Preamble
    ensures forall i :: 0 <= i < |paras| ==> r[|Preamble| + i] == ParagraphEntry(paras[i])
    ensures r[|r| - 1] == EndDocument
  {
    Preamble + Entries(paras) + [EndDocument]
  }

  /** A paragraph whose runs all have empty text is a blank paragraph. */
  lemma EmptyRunsGiveBlank(p: DocParagraph)
    requires forall k :: 0 <= k < |p.runs| ==> p.runs[k].text == []
    ensures ParagraphEntry(p) == BlankParagraph
  {
    EmptyRunsNoParts(p.runs);
  }

  lemma {:induction false} EmptyRunsNoParts(runs: seq<DocRun>)
    requires forall k :: 0 <= k < |runs| ==> runs[k].text == []
    ensures LineParts(runs) == []
  {
    if runs != [] {
      EmptyRunsNoParts(runs[..|runs| - 1]);
    }
  }

  // ---- The conversion loop ----

  /** `docx_to_latex` without the file I/O: the text written to the output
      file for a document's paragraphs. */
  method DocxToLatex(paras: seq<DocParagraph>) returns (tex: string)
    ensures tex == Join(DocumentLines(paras), "\n")
  {
    var latexLines := Preamble;
    var i := 0;
    while i < |paras|
      invariant 0 <= i <= |paras|
      invariant latexLines == Preamble + Entries(paras[..i])
    {
      var para := paras[i];
      var entry := ConvertParagraph(para);
      LinesSnoc(paras, i, entry);
      latexLines := latexLines + [entry];
      i := i + 1;
    }
    assert paras[..i] == paras;
    assert latexLines + [EndDocument] == DocumentLines(paras);
    latexLines := latexLines + [EndDocument];
    tex := Join(latexLines, "\n");
  }

  /** One more paragraph adds its entry to the lines. */
  lemma LinesSnoc(paras: seq<DocParagraph>, i: nat, entry: string)
    requires i < |paras| && entry == ParagraphEntry(paras[i])
    ensures Preamble + Entries(paras[..i]) + [entry] == Preamble + Entries(paras[..i + 1])
  {
    assert paras[..i + 1] == paras[..i] + [paras[i]];
    EntriesSnoc(paras[..i], paras[i]);
  }

  /** The body of the paragraph loop: the paragraph's runs joined by spaces,
      in its alignment environment, or the blank-paragraph line. */
  method ConvertParagraph(para: DocParagraph) returns (entry: string)
    ensures entry == ParagraphEntry(para)
  {
    var alignment := AlignmentEnv(para.alignment);
    var lineParts := ConvertRuns(para.runs);
    var fullLine := Join(lineParts, " ");
    if Strip(fullLine) != [] {
      entry := "\\begin{" + alignment + "}\n" + fullLine + "\n\\end{" + alignment + "}";
    } else {
      entry := BlankParagraph;
    }
  }

  /** The run loop of one paragraph: escape, skip empty text, wrap, collect. */
  method ConvertRuns(runs: seq<DocRun>) returns (lineParts: seq<string>)
    ensures lineParts == LineParts(runs)
  {
    lineParts := [];
    var j := 0;
    while j < |runs|
      invariant 0 <= j <= |runs|
      invariant lineParts == LineParts(runs[..j])
    {
      var run := runs[j];
      PartsSnoc(runs, j);
      var text := EscapeLatex(run.text);
      if text == [] {
        j := j + 1;
        continue;
      }
      text := WrapText(run, text);
      assert RunLatex(run).ToSeq() == [text];
      lineParts := lineParts + [text];
      j := j + 1;
    }
    TakeAll(runs);
  }

  /** One more run adds its piece, if any. */
  lemma PartsSnoc(runs: seq<DocRun>, j: nat)
    requires j < |runs|
    ensures LineParts(runs[..j + 1]) == LineParts(runs[..j]) + RunLatex(runs[j]).ToSeq()
  {
    assert runs[..j + 1][..j] == runs[..j];
  }

  /** The wrapping steps of the run loop, applied to an escaped text. */
  method WrapText(run: DocRun, escaped: string) returns (text: string)
    ensures text == WrapRun(run, escaped)
  {
    text := escaped;
    if run.bold {
      text := "\\textbf{" + text + "}";
    }
    if run.italic {
      text := "\\textit{" + text + "}";
    }
    if run.underline {
      text := "\\uline{" + text + "}";
    }
    if run.color.Some? {
      text := "\\textcolor[HTML]{" + run.color.value + "}{" + text + "}";
    }
    var highlight := run.highlight;
    if highlight.Some? && highlight.value in HighlightMap {
      var latexColor := HighlightMap[highlight.value];
      text := "\\sethlcolor{" + latexColor + "}\\hl{" + text + "}";
    }
  }
}
