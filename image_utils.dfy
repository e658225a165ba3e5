/**
 * The drawing and format helpers of the editor: text placement, the frame's
 * vector description, greedy word wrap and the data-URL to Blob conversion.
 */
module ImageUtils {

  import opened Types
  import opened Strings
  import Base64

  // ---------------------------------------------------------------------
  // drawText
  // ---------------------------------------------------------------------

  /** The CSS font shorthand `<weight> <size>px <family>`. */
  function FontString(weight: string, fontSize: nat, fontFamily: string): string {
    weight + " " + NatToString(fontSize) + "px " + fontFamily
  }

  function TextLines(t: TextData): (lines: seq<string>)
    ensures |lines| >= 1
  {
    Split(t.text, '\n')
  }

  function LineHeight(fontSize: nat): real {
    fontSize as real * 1.2
  }

  /** n times r, as the sum of n copies of r; TimesIsProduct shows it is the product. */
  function Times(n: nat, r: real): real {
    if n == 0 then 0.0 else Times(n - 1, r) + r
  }

  lemma {:induction false} TimesIsProduct(n: nat, r: real)
    ensures Times(n, r) == n as real * r
  {
    if n > 0 {
      TimesIsProduct(n - 1, r);
      assert (n - 1) as real * r + r == n as real * r;
    }
  }

  /** The baseline of the first of n lines, so that the block of n line heights is centred on y. */
  function FirstBaseline(y: real, lineHeight: real, n: nat): real {
    y - Times(n, lineHeight) / 2.0 + lineHeight / 2.0
  }

  function TextSetup(t: TextData): seq<DrawOp> {
    [SetFillStyle(t.color), SetFont(FontString(t.weight, t.fontSize, t.fontFamily)),
     SetTextAlign("center"), SetTextBaseline("middle")]
  }

  /** The i-th baseline after `first`, reached by adding the line height i times. */
  function Baseline(first: real, lh: real, i: nat): real {
    if i == 0 then first else Baseline(first, lh, i - 1) + lh
  }

  function LineFills(lines: seq<string>, x: real, first: real, lh: real): (ops: seq<DrawOp>)
    ensures |ops| == |lines|
  {
    seq(|lines|, i requires 0 <= i < |lines| => FillText(lines[i], x, Baseline(first, lh, i)))
  }

  function TextOps(t: TextData): seq<DrawOp> {
    var lines := TextLines(t);
    var lh := LineHeight(t.fontSize);
    TextSetup(t) + LineFills(lines, t.position.x, FirstBaseline(t.position.y, lh, |lines|), lh)
  }

  method DrawText(t: TextData) returns (ops: seq<DrawOp>)
    ensures ops == TextOps(t)
  {
    ops := TextSetup(t);
    var lines := Split(t.text, '\n');
    var lineHeight := LineHeight(t.fontSize);
    var totalHeight := Times(|lines|, lineHeight);
    var y := t.position.y - totalHeight / 2.0 + lineHeight / 2.0;
    assert lines == TextLines(t);
    assert y == FirstBaseline(t.position.y, lineHeight, |lines|);
    ghost var first := y;
    ghost var fills: seq<DrawOp> := [];
    for i := 0 to |lines|
      invariant ops == TextSetup(t) + fills
      invariant fills == LineFills(lines[..i], t.position.x, first, lineHeight)
      invariant y == Baseline(first, lineHeight, i)
    {
      ops := ops + [FillText(lines[i], t.position.x, y)];
      fills := fills + [FillText(lines[i], t.position.x, y)];
      y := y + lineHeight;
    }
    assert lines[..|lines|] == lines;
    assert ops == TextSetup(t) + LineFills(lines, t.position.x, first, lineHeight);
  }

  lemma {:induction false} BaselineClosed(first: real, lh: real, i: nat)
    ensures Baseline(first, lh, i) == first + i as real * lh
  {
    if i > 0 {
      BaselineClosed(first, lh, i - 1);
      assert (i - 1) as real * lh + lh == i as real * lh;
    }
  }

  lemma LineFillsClosed(lines: seq<string>, x: real, first: real, lh: real)
    ensures forall i :: 0 <= i < |lines| ==>
      LineFills(lines, x, first, lh)[i] == FillText(lines[i], x, first + i as real * lh)
  {
    forall i | 0 <= i < |lines|
      ensures LineFills(lines, x, first, lh)[i] == FillText(lines[i], x, first + i as real * lh)
    {
      BaselineClosed(first, lh, i);
    }
  }

  lemma TextOpsShape(t: TextData)
    ensures var ops := TextOps(t); var lines := TextLines(t); var lh := LineHeight(t.fontSize);
      |ops| == 4 + |lines| && ops[..4] == TextSetup(t) &&
      forall i :: 0 <= i < |lines| ==>
        ops[4 + i] == FillText(lines[i], t.position.x, FirstBaseline(t.position.y, lh, |lines|) + i as real * lh)
  {
    var lines := TextLines(t);
    var lh := LineHeight(t.fontSize);
    var fills := LineFills(lines, t.position.x, FirstBaseline(t.position.y, lh, |lines|), lh);
    LineFillsClosed(lines, t.position.x, FirstBaseline(t.position.y, lh, |lines|), lh);
    assert TextOps(t) == TextSetup(t) + fills;
  }

  function FillHeightSum(ops: seq<DrawOp>): real {
    if |ops| == 0 then 0.0
    else FillHeightSum(ops[..|ops| - 1]) + (if ops[|ops| - 1].FillText? then ops[|ops| - 1].y else 0.0)
  }

  function CountFills(ops: seq<DrawOp>): nat {
    if |ops| == 0 then 0 else CountFills(ops[..|ops| - 1]) + (if ops[|ops| - 1].FillText? then 1 else 0)
  }

  lemma {:induction false} FillsConcat(a: seq<DrawOp>, b: seq<DrawOp>)
    ensures CountFills(a + b) == CountFills(a) + CountFills(b)
    ensures FillHeightSum(a + b) == FillHeightSum(a) + FillHeightSum(b)
  {
    if |b| == 0 {
      assert a + b == a;
    } else {
      FillsConcat(a, b[..|b| - 1]);
      assert (a + b)[..|a + b| - 1] == a + b[..|b| - 1];
    }
  }

  function BaselineSum(first: real, lh: real, n: nat): real {
    if n == 0 then 0.0 else BaselineSum(first, lh, n - 1) + Baseline(first, lh, n - 1)
  }

  lemma {:induction false} FillsOfLineFills(lines: seq<string>, x: real, first: real, lh: real, k: nat)
    requires k <= |lines|
    ensures CountFills(LineFills(lines, x, first, lh)[..k]) == k
    ensures FillHeightSum(LineFills(lines, x, first, lh)[..k]) == BaselineSum(first, lh, k)
  {
    if k > 0 {
      var fills := LineFills(lines, x, first, lh);
      FillsOfLineFills(lines, x, first, lh, k - 1);
      assert fills[..k][..k - 1] == fills[..k - 1];
    }
  }

  lemma SumStep(a: real, lh: real, m: real, nr: real, sum: real, last: real)
    requires nr == m + 1.0
    requires 2.0 * sum == 2.0 * m * a + lh * m * (m - 1.0)
    requires last == a + m * lh
    ensures 2.0 * (sum + last) == 2.0 * nr * a + lh * nr * (nr - 1.0)
  {
  }

  lemma {:induction false} BaselineSumClosed(first: real, lh: real, n: nat)
    ensures 2.0 * BaselineSum(first, lh, n) == 2.0 * n as real * first + lh * n as real * (n as real - 1.0)
  {
    if n > 0 {
      var m := (n - 1) as real;
      var sum := BaselineSum(first, lh, n - 1);
      var last := Baseline(first, lh, n - 1);
      BaselineSumClosed(first, lh, n - 1);
      BaselineClosed(first, lh, n - 1);
      assert 2.0 * sum == 2.0 * m * first + lh * m * (m - 1.0);
      assert last == first + m * lh;
      assert n as real == m + 1.0;
      SumStep(first, lh, m, n as real, sum, last);
    }
  }

  lemma CentredAlgebra(y: real, lh: real, nr: real, total: real, sum: real)
    requires total == nr * lh
    requires 2.0 * sum == 2.0 * nr * (y - total / 2.0 + lh / 2.0) + lh * nr * (nr - 1.0)
    ensures sum == nr * y
  {
  }

  lemma CentredSum(y: real, lh: real, n: nat)
    ensures BaselineSum(FirstBaseline(y, lh, n), lh, n) == n as real * y
  {
    var first := FirstBaseline(y, lh, n);
    BaselineSumClosed(first, lh, n);
    TimesIsProduct(n, lh);
    CentredAlgebra(y, lh, n as real, Times(n, lh), BaselineSum(first, lh, n));
  }

  lemma {:induction false} NoFills(ops: seq<DrawOp>)
    requires forall i :: 0 <= i < |ops| ==> !ops[i].FillText?
    ensures CountFills(ops) == 0 && FillHeightSum(ops) == 0.0
  {
    if |ops| > 0 {
      NoFills(ops[..|ops| - 1]);
    }
  }

  lemma CentredLineFills(lines: seq<string>, x: real, y: real, lh: real)
    ensures var fills := LineFills(lines, x, FirstBaseline(y, lh, |lines|), lh);
      CountFills(fills) == |lines| && FillHeightSum(fills) == |lines| as real * y
  {
    var n := |lines|;
    var first := FirstBaseline(y, lh, n);
    var fills := LineFills(lines, x, first, lh);
    FillsOfLineFills(lines, x, first, lh, n);
    assert fills[..n] == fills;
    CentredSum(y, lh, n);
  }

  lemma CentredFills(setup: seq<DrawOp>, lines: seq<string>, x: real, y: real, lh: real)
    requires CountFills(setup) == 0 && FillHeightSum(setup) == 0.0
    ensures var ops := setup + LineFills(lines, x, FirstBaseline(y, lh, |lines|), lh);
      CountFills(ops) == |lines| && FillHeightSum(ops) == |lines| as real * y
  {
    var fills := LineFills(lines, x, FirstBaseline(y, lh, |lines|), lh);
    FillsConcat(setup, fills);
    CentredLineFills(lines, x, y, lh);
  }

  lemma TextBlockCentred(t: TextData)
    ensures CountFills(TextOps(t)) == |TextLines(t)|
    ensures FillHeightSum(TextOps(t)) == |TextLines(t)| as real * t.position.y
  {
    NoFills(TextSetup(t));
    CentredFills(TextSetup(t), TextLines(t), t.position.x, t.position.y, LineHeight(t.fontSize));
  }

  /** The strings of the fills after a setup of four operations. */
  function FilledLines(ops: seq<DrawOp>, n: nat): seq<string>
    requires |ops| == 4 + n
    requires forall i :: 4 <= i < |ops| ==> ops[i].FillText?
  {
    seq(n, i requires 0 <= i < n => ops[4 + i].line)
  }

  lemma FilledLinesOf(setup: seq<DrawOp>, lines: seq<string>, x: real, first: real, lh: real)
    requires |setup| == 4
    ensures var ops := setup + LineFills(lines, x, first, lh);
      (forall i :: 4 <= i < |ops| ==> ops[i].FillText?) && FilledLines(ops, |lines|) == lines
  {
  }

  lemma TextFillsCoverText(t: TextData)
    ensures (forall i :: 4 <= i < |TextOps(t)| ==> TextOps(t)[i].FillText?)
    ensures |TextOps(t)| == 4 + |TextLines(t)|
    ensures Join(FilledLines(TextOps(t), |TextLines(t)|), "\n") == t.text
  {
    var lines := TextLines(t);
    var lh := LineHeight(t.fontSize);
    FilledLinesOf(TextSetup(t), lines, t.position.x, FirstBaseline(t.position.y, lh, |lines|), lh);
    JoinSplit(t.text, '\n');
  }

  // ---------------------------------------------------------------------
  // generateFrameSvg
  // ---------------------------------------------------------------------

  /** One `<rect>` of the frame's SVG; the fill is always "none". */
  datatype Rect = Rect(
    x: int, y: int, width: int, height: int,
    stroke: string, strokeWidth: nat, rx: int, ry: int,
    dashArray: Option<string>)

  /** The `<svg>` document of a frame: its size and its rectangles, in document order. */
  datatype FrameSvg = FrameSvg(width: nat, height: nat, rects: seq<Rect>)

  /** `borderRadius || 20`: an absent or zero radius becomes 20. */
  function EffectiveRadius(borderRadius: Option<int>): (r: int)
    ensures r != 0
    ensures borderRadius.Some? && borderRadius.value != 0 ==> r == borderRadius.value
    ensures borderRadius.None? || borderRadius.value == 0 ==> r == 20
  {
    match borderRadius
    case None => 20
    case Some(r) => if r == 0 then 20 else r
  }

  /**
   * generateFrameSvg: an outer rounded rectangle the size of the canvas,
   * dashed "20 10" only for the dashed style, and for the double style a
   * second one inset by 20 with a radius 10 smaller.
   */
  function GenerateFrameSvg(frame: FrameData, width: nat, height: nat): (svg: FrameSvg)
    ensures svg.width == width && svg.height == height
    ensures |svg.rects| == (if frame.style == Double then 2 else 1)
    ensures var r := EffectiveRadius(frame.borderRadius);
      svg.rects[0] == Rect(0, 0, width, height, frame.color, 10, r, r,
                           if frame.style == Dashed then Some("20 10") else None)
    ensures frame.style == Double ==>
      var r := EffectiveRadius(frame.borderRadius);
      svg.rects[1] == Rect(20, 20, width - 40, height - 40, frame.color, 10, r - 10, r - 10, None)
    ensures forall i :: 0 <= i < |svg.rects| ==> svg.rects[i].stroke == frame.color
  {
    var r := EffectiveRadius(frame.borderRadius);
    var outer := Rect(0, 0, width, height, frame.color, 10, r, r,
                      if frame.style == Dashed then Some("20 10") else None);
    var inner := Rect(20, 20, width - 40, height - 40, frame.color, 10, r - 10, r - 10, None);
    FrameSvg(width, height, [outer] + (if frame.style == Double then [inner] else []))
  }

  /** The SVG depends on the colour, style and radius only, never on the frame's position or size. */
  lemma FrameSvgIgnoresPlacement(frame: FrameData, position: Option<Point>, size: Option<Size>, width: nat, height: nat)
    ensures GenerateFrameSvg(frame.(position := position, size := size), width, height)
         == GenerateFrameSvg(frame, width, height)
  {
  }

  // ---------------------------------------------------------------------
  // getWrappedLines
  // ---------------------------------------------------------------------

  /**
   * Greedy wrap of one paragraph's words (the words of `paragraph.split(' ')`):
   * a word joins the current line when the measured width of
   * `current + ' ' + word` is below maxWidth, otherwise it starts a new line.
   * `measure(font, s)` is the context's measured width of s in that font.
   */
  function WrapWords(words: seq<string>, font: string, maxWidth: real, measure: (string, string) -> real): (lines: seq<string>)
    requires |words| >= 1
    ensures |lines| >= 1
  {
    if |words| == 1 then [words[0]]
    else
      var prev := WrapWords(words[..|words| - 1], font, maxWidth, measure);
      var current := prev[|prev| - 1];
      var word := words[|words| - 1];
      if measure(font, current + " " + word) < maxWidth then prev[..|prev| - 1] + [current + " " + word]
      else prev + [word]
  }

  function ParagraphLines(paragraph: string, font: string, maxWidth: real, measure: (string, string) -> real): (lines: seq<string>)
    ensures |lines| >= 1
  {
    WrapWords(Split(paragraph, ' '), font, maxWidth, measure)
  }

  /** The lines of all paragraphs, paragraph after paragraph. */
  function WrapParagraphs(paragraphs: seq<string>, font: string, maxWidth: real, measure: (string, string) -> real): (lines: seq<string>)
    ensures |lines| >= |paragraphs|
  {
    if |paragraphs| == 0 then []
    else
      WrapParagraphs(paragraphs[..|paragraphs| - 1], font, maxWidth, measure)
        + ParagraphLines(paragraphs[|paragraphs| - 1], font, maxWidth, measure)
  }

  function WrappedLines(text: string, fontSize: nat, fontFamily: string, weight: string, maxWidth: real,
                        measure: (string, string) -> real): seq<string>
  {
    WrapParagraphs(Split(text, '\n'), FontString(weight, fontSize, fontFamily), maxWidth, measure)
  }

  /**
   * getWrappedLines: measures in the font built from weight, size and
   * family, and wraps every `\n`-separated paragraph greedily, pushing the
   * finished lines in order. The font is passed to `measure`; the lasting
   * assignment of it to the context is not part of this model.
   */
  method GetWrappedLines(text: string, fontSize: nat, fontFamily: string, weight: string, maxWidth: real,
                         measure: (string, string) -> real)
    returns (lines: seq<string>)
    ensures lines == WrappedLines(text, fontSize, fontFamily, weight, maxWidth, measure)
  {
    var font := FontString(weight, fontSize, fontFamily);
    lines := [];
    var paragraphs := Split(text, '\n');
    for p := 0 to |paragraphs|
      invariant lines == WrapParagraphs(paragraphs[..p], font, maxWidth, measure)
    {
      var paragraphLines := WrapParagraph(paragraphs[p], font, maxWidth, measure);
      lines := lines + paragraphLines;
      WrapParagraphsStep(paragraphs, p, font, maxWidth, measure);
    }
    assert paragraphs[..|paragraphs|] == paragraphs;
  }

  /**
   * The inner loop of getWrappedLines for one paragraph: the current line
   * grows word by word and is pushed when the next word does not fit.
   */
  method WrapParagraph(paragraph: string, font: string, maxWidth: real, measure: (string, string) -> real)
    returns (lines: seq<string>)
    ensures lines == ParagraphLines(paragraph, font, maxWidth, measure)
  {
    var words := Split(paragraph, ' ');
    var currentLine := words[0];
    lines := [];
    assert words[..1] == [words[0]];
    for i := 1 to |words|
      invariant lines + [currentLine] == WrapWords(words[..i], font, maxWidth, measure)
    {
      var word := words[i];
      var width := measure(font, currentLine + " " + word);
      WrapWordsStep(words, i, font, maxWidth, measure, lines, currentLine);
      if width < maxWidth {
        currentLine := currentLine + " " + word;
      } else {
        lines := lines + [currentLine];
        currentLine := word;
      }
    }
    assert words[..|words|] == words;
    lines := lines + [currentLine];
  }

  /** One step of the greedy wrap: the next word either extends the last line or starts a new one. */
  lemma WrapWordsStep(words: seq<string>, i: nat, font: string, maxWidth: real, measure: (string, string) -> real,
                      done: seq<string>, current: string)
    requires 1 <= i < |words|
    requires done + [current] == WrapWords(words[..i], font, maxWidth, measure)
    ensures WrapWords(words[..i + 1], font, maxWidth, measure)
         == if measure(font, current + " " + words[i]) < maxWidth then done + [current + " " + words[i]]
            else done + [current] + [words[i]]
  {
    var w := WrapWords(words[..i], font, maxWidth, measure);
    assert words[..i + 1][..i] == words[..i];
    assert w[..|w| - 1] == done;
  }

  lemma WrapParagraphsStep(paragraphs: seq<string>, p: nat, font: string, maxWidth: real, measure: (string, string) -> real)
    requires p < |paragraphs|
    ensures WrapParagraphs(paragraphs[..p + 1], font, maxWidth, measure)
         == WrapParagraphs(paragraphs[..p], font, maxWidth, measure) + ParagraphLines(paragraphs[p], font, maxWidth, measure)
  {
    assert paragraphs[..p + 1][..p] == paragraphs[..p];
  }

  /** At least one line per paragraph. */
  lemma WrappedLinesCount(text: string, fontSize: nat, fontFamily: string, weight: string, maxWidth: real,
                          measure: (string, string) -> real)
    ensures |WrappedLines(text, fontSize, fontFamily, weight, maxWidth, measure)| >= |Split(text, '\n')|
  {
  }

  lemma {:induction false} WrapWordsJoin(words: seq<string>, font: string, maxWidth: real, measure: (string, string) -> real)
    requires |words| >= 1
    ensures Join(WrapWords(words, font, maxWidth, measure), " ") == Join(words, " ")
  {
    if |words| > 1 {
      var init := words[..|words| - 1];
      var prev := WrapWords(init, font, maxWidth, measure);
      var current := prev[|prev| - 1];
      var word := words[|words| - 1];
      WrapWordsJoin(init, font, maxWidth, measure);
      JoinSnoc(init, word, " ");
      assert words == init + [word];
      if measure(font, current + " " + word) < maxWidth {
        JoinGrowLast(prev, word, " ");
      } else {
        JoinSnoc(prev, word, " ");
      }
    }
  }

  /** Joining one paragraph's lines with single spaces gives the paragraph back. */
  lemma ParagraphLinesJoin(paragraph: string, font: string, maxWidth: real, measure: (string, string) -> real)
    ensures Join(ParagraphLines(paragraph, font, maxWidth, measure), " ") == paragraph
  {
    WrapWordsJoin(Split(paragraph, ' '), font, maxWidth, measure);
    JoinSplit(paragraph, ' ');
  }

  /** A line that holds a space (two or more words) was measured below maxWidth. */
  predicate LinesFit(lines: seq<string>, font: string, maxWidth: real, measure: (string, string) -> real) {
    forall k :: 0 <= k < |lines| && ' ' in lines[k] ==> measure(font, lines[k]) < maxWidth
  }

  function FirstWord(line: string): string {
    Split(line, ' ')[0]
  }

  /** Every line break was forced: the next line's first word did not fit after the line. */
  predicate BreaksForced(lines: seq<string>, font: string, maxWidth: real, measure: (string, string) -> real) {
    forall k :: 0 <= k < |lines| - 1 ==> measure(font, lines[k] + " " + FirstWord(lines[k + 1])) >= maxWidth
  }

  lemma {:induction false} FirstWordOfExtension(line: string, word: string)
    ensures FirstWord(line + " " + word) == FirstWord(line)
  {
    if |line| == 0 {
      assert (line + " " + word)[1..] == word;
    } else {
      assert (line + " " + word)[1..] == line[1..] + " " + word;
      FirstWordOfExtension(line[1..], word);
    }
  }

  /** The greedy wrap of a paragraph: every multi-word line fits and every break is forced. */
  lemma {:induction false} WrapWordsGreedy(words: seq<string>, font: string, maxWidth: real, measure: (string, string) -> real)
    requires |words| >= 1
    requires forall i :: 0 <= i < |words| ==> ' ' !in words[i]
    ensures LinesFit(WrapWords(words, font, maxWidth, measure), font, maxWidth, measure)
    ensures BreaksForced(WrapWords(words, font, maxWidth, measure), font, maxWidth, measure)
  {
    if |words| > 1 {
      var init := words[..|words| - 1];
      var prev := WrapWords(init, font, maxWidth, measure);
      var word := words[|words| - 1];
      WrapWordsGreedy(init, font, maxWidth, measure);
      if measure(font, prev[|prev| - 1] + " " + word) < maxWidth {
        GreedyExtend(prev, word, font, maxWidth, measure);
      } else {
        GreedyBreak(prev, word, font, maxWidth, measure);
      }
    }
  }

  /** A word that fits after the last line joins it, and the wrap stays greedy. */
  lemma GreedyExtend(prev: seq<string>, word: string, font: string, maxWidth: real, measure: (string, string) -> real)
    requires |prev| >= 1
    requires LinesFit(prev, font, maxWidth, measure) && BreaksForced(prev, font, maxWidth, measure)
    requires measure(font, prev[|prev| - 1] + " " + word) < maxWidth
    ensures var lines := prev[..|prev| - 1] + [prev[|prev| - 1] + " " + word];
      LinesFit(lines, font, maxWidth, measure) && BreaksForced(lines, font, maxWidth, measure)
  {
    var current := prev[|prev| - 1];
    var lines := prev[..|prev| - 1] + [current + " " + word];
    FirstWordOfExtension(current, word);
    assert ' ' in current + " " + word by {
      assert (current + " " + word)[|current|] == ' ';
    }
    forall k | 0 <= k < |lines| - 1
      ensures measure(font, lines[k] + " " + FirstWord(lines[k + 1])) >= maxWidth
    {
      assert lines[k] == prev[k];
      if k + 1 < |lines| - 1 {
        assert lines[k + 1] == prev[k + 1];
      }
    }
  }

  /** A word that does not fit starts a new line, and the wrap stays greedy. */
  lemma GreedyBreak(prev: seq<string>, word: string, font: string, maxWidth: real, measure: (string, string) -> real)
    requires |prev| >= 1 && ' ' !in word
    requires LinesFit(prev, font, maxWidth, measure) && BreaksForced(prev, font, maxWidth, measure)
    requires measure(font, prev[|prev| - 1] + " " + word) >= maxWidth
    ensures LinesFit(prev + [word], font, maxWidth, measure) && BreaksForced(prev + [word], font, maxWidth, measure)
  {
    SplitFree(word, ' ');
    var lines := prev + [word];
    forall k | 0 <= k < |lines| - 1
      ensures measure(font, lines[k] + " " + FirstWord(lines[k + 1])) >= maxWidth
    {
      assert lines[k] == prev[k];
    }
  }

  /** The wrap of one paragraph: at least one line, every multi-word line fits and every break is forced. */
  lemma ParagraphLinesGreedy(paragraph: string, font: string, maxWidth: real, measure: (string, string) -> real)
    ensures |ParagraphLines(paragraph, font, maxWidth, measure)| >= 1
    ensures LinesFit(ParagraphLines(paragraph, font, maxWidth, measure), font, maxWidth, measure)
    ensures BreaksForced(ParagraphLines(paragraph, font, maxWidth, measure), font, maxWidth, measure)
  {
    SplitPiecesFree(paragraph, ' ');
    WrapWordsGreedy(Split(paragraph, ' '), font, maxWidth, measure);
  }

  // ---------------------------------------------------------------------
  // dataURLtoBlob
  // ---------------------------------------------------------------------

  datatype Blob = Blob(bytes: seq<Byte>, mimeType: string)

  /** Why the conversion throws: the header has no `:...;` match, or atob rejects the payload. */
  datatype BlobError = NoMimeType | InvalidBase64

  /** The characters `.` in a regular expression does not match. */
  predicate IsLineTerminator(c: char) {
    c == '\n' || c == '\r' || c == '\U{2028}' || c == '\U{2029}'
  }

  /** The first ';' at or after `from`, unless a line terminator or the end comes first. */
  function SemicolonFrom(s: string, from: nat): (r: Option<nat>)
    ensures r.Some? ==> from <= r.value < |s| && s[r.value] == ';'
    ensures r.Some? ==> forall k :: from <= k < r.value ==> s[k] != ';' && !IsLineTerminator(s[k])
    ensures r.None? <==>
      forall j :: from <= j < |s| && s[j] == ';' ==> exists k :: from <= k < j && IsLineTerminator(s[k])
    decreases |s| - from
  {
    if from >= |s| then None
    else if s[from] == ';' then Some(from)
    else if IsLineTerminator(s[from]) then None
    else SemicolonFrom(s, from + 1)
  }

  /** The group of the leftmost match of `/:(.*?);/` starting at or after `from`. */
  function MatchFrom(s: string, from: nat): (r: Option<string>)
    ensures r.Some? ==> ';' !in r.value && forall k :: 0 <= k < |r.value| ==> !IsLineTerminator(r.value[k])
    decreases |s| - from
  {
    if from >= |s| then None
    else if s[from] == ':' && SemicolonFrom(s, from + 1).Some? then
      Some(s[from + 1..SemicolonFrom(s, from + 1).value])
    else MatchFrom(s, from + 1)
  }

  /** A colon at `i` opens a match: a `;` follows it before any line terminator. */
  predicate OpensMatch(s: string, i: nat) {
    i < |s| && s[i] == ':' && SemicolonFrom(s, i + 1).Some?
  }

  /** MatchFrom finds a match exactly when some colon at or after `from` opens one. */
  lemma {:induction false} MatchFromNone(s: string, from: nat)
    ensures MatchFrom(s, from).None? <==> forall i :: from <= i < |s| ==> !OpensMatch(s, i)
    decreases |s| - from
  {
    if from < |s| {
      if OpensMatch(s, from) {
        assert MatchFrom(s, from).Some?;
      } else {
        MatchFromNone(s, from + 1);
        assert MatchFrom(s, from) == MatchFrom(s, from + 1);
      }
    }
  }

  /** A match is the text between the leftmost opening colon and the `;` that closes it. */
  lemma {:induction false} MatchFromSome(s: string, from: nat)
    ensures MatchFrom(s, from).Some? ==>
      exists i :: from <= i && OpensMatch(s, i) &&
        MatchFrom(s, from).value == s[i + 1..SemicolonFrom(s, i + 1).value] &&
        forall k :: from <= k < i ==> !OpensMatch(s, k)
    decreases |s| - from
  {
    if from < |s| && !OpensMatch(s, from) {
      MatchFromSome(s, from + 1);
    }
  }

  function MediaType(header: string): Option<string> {
    MatchFrom(header, 0)
  }

  /** The text after the first comma, or "undefined" (what atob receives for a missing `arr[1]`). */
  function Payload(pieces: seq<string>): string {
    if |pieces| > 1 then pieces[1] else "undefined"
  }

  /** The Uint8Array store of a character code: its low eight bits. */
  function ToUint8(code: int): Byte {
    code % 256
  }

  /** The bytes a Uint8Array holds after each character code of s is stored in it. */
  function CharCodes(s: string): (bytes: seq<Byte>)
    ensures |bytes| == |s|
  {
    seq(|s|, i requires 0 <= i < |s| => ToUint8(s[i] as int))
  }

  function ParseDataUrl(dataUrl: string): Result<Blob, BlobError> {
    var pieces := Split(dataUrl, ',');
    match MediaType(pieces[0])
    case None => Failure(NoMimeType)
    case Some(mime) =>
      match Base64.Atob(Payload(pieces))
      case None => Failure(InvalidBase64)
      case Some(bstr) => Success(Blob(CharCodes(bstr), mime))
  }

  /**
   * dataURLtoBlob: the media type is the text between ':' and ';' in the
   * part before the first comma; the part after it is base64-decoded and its
   * character codes are copied, last to first, into a byte array.
   */
  method DataUrlToBlob(dataUrl: string) returns (r: Result<Blob, BlobError>)
    ensures r == ParseDataUrl(dataUrl)
  {
    var arr := Split(dataUrl, ',');
    var mime := MediaType(arr[0]);
    if mime.None? {
      return Failure(NoMimeType);
    }
    var decoded := Base64.Atob(Payload(arr));
    if decoded.None? {
      return Failure(InvalidBase64);
    }
    var u8arr := StoreCharCodes(decoded.value);
    r := Success(Blob(u8arr[..], mime.value));
  }

  /** `new Uint8Array(n)` filled by `while (n--) u8arr[n] = bstr.charCodeAt(n)`. */
  method StoreCharCodes(bstr: string) returns (u8arr: array<Byte>)
    ensures fresh(u8arr)
    ensures u8arr[..] == CharCodes(bstr)
  {
    var n := |bstr|;
    u8arr := new Byte[n];
    while n > 0
      invariant 0 <= n <= |bstr|
      invariant forall k :: n <= k < |bstr| ==> u8arr[k] == ToUint8(bstr[k] as int)
    {
      n := n - 1;
      u8arr[n] := ToUint8(bstr[n] as int);
    }
  }

  /**
   * A successful conversion carries the media type of the header and one byte
   * per decoded character, equal to its character code; it fails exactly when
   * the header has no media type or atob rejects the payload.
   */
  lemma ParseDataUrlMeaning(dataUrl: string)
    ensures var pieces := Split(dataUrl, ',');
      match ParseDataUrl(dataUrl)
      case Success(blob) =>
        MediaType(pieces[0]) == Some(blob.mimeType)
        && Base64.Atob(Payload(pieces)).Some?
        && var bstr := Base64.Atob(Payload(pieces)).value;
           |blob.bytes| == |bstr| && forall i :: 0 <= i < |bstr| ==> blob.bytes[i] == bstr[i] as int
      case Failure(NoMimeType) => MediaType(pieces[0]).None?
      case Failure(InvalidBase64) => MediaType(pieces[0]).Some? && Base64.Atob(Payload(pieces)).None?
  {
    var pieces := Split(dataUrl, ',');
    var decoded := Base64.Atob(Payload(pieces));
    if MediaType(pieces[0]).Some? && decoded.Some? {
      CharCodesLatin1Text(decoded.value);
    }
  }

  /** Storing characters whose codes are below 256 keeps each code as it is. */
  lemma CharCodesLatin1Text(bstr: string)
    requires forall i :: 0 <= i < |bstr| ==> bstr[i] as int < 256
    ensures forall i :: 0 <= i < |bstr| ==> CharCodes(bstr)[i] == bstr[i] as int
  {
    forall i | 0 <= i < |bstr|
      ensures CharCodes(bstr)[i] == bstr[i] as int
    {
      assert bstr[i] as int < 256;
    }
  }

  /** A data URL built from a media type and the base64 text of some bytes converts back to those bytes. */
  lemma DataUrlRoundTrip(mime: string, bytes: seq<Byte>)
    requires ',' !in mime && ';' !in mime
    requires forall k :: 0 <= k < |mime| ==> !IsLineTerminator(mime[k])
    ensures ParseDataUrl("data:" + mime + ";base64," + Base64.Encode(bytes)) == Success(Blob(bytes, mime))
  {
    var header := "data:" + mime + ";base64";
    var body := Base64.Encode(bytes);
    var url := "data:" + mime + ";base64," + body;
    assert url == header + [','] + body;
    UrlPieces(header, body);
    SemicolonOfHeader(mime);
    Base64.AtobEncode(bytes);
    CharCodesLatin1(bytes);
  }

  lemma UrlPieces(header: string, body: string)
    requires ',' !in header
    requires forall k :: 0 <= k < |body| ==> Base64.InAlphabet(body[k]) || body[k] == '='
    ensures Split(header + [','] + body, ',') == [header, body]
  {
    SplitCons(header, body, ',');
    SplitFree(body, ',');
  }

  /** Storing the characters of a binary string in a Uint8Array gives back the octets it was made of. */
  lemma CharCodesLatin1(bytes: seq<Byte>)
    ensures CharCodes(Base64.Latin1(bytes)) == bytes
  {
  }

  lemma SemicolonOfHeader(mime: string)
    requires ';' !in mime
    requires forall k :: 0 <= k < |mime| ==> !IsLineTerminator(mime[k])
    ensures MatchFrom("data:" + mime + ";base64", 0) == Some(mime)
  {
    var h := "data:" + mime + ";base64";
    SemicolonScan(h, 5, 5 + |mime|);
    assert MatchFrom(h, 4) == Some(mime);
    assert MatchFrom(h, 3) == MatchFrom(h, 4);
    assert MatchFrom(h, 2) == MatchFrom(h, 3);
    assert MatchFrom(h, 1) == MatchFrom(h, 2);
  }

  lemma {:induction false} SemicolonScan(s: string, from: nat, j: nat)
    requires from <= j < |s| && s[j] == ';'
    requires forall k :: from <= k < j ==> s[k] != ';' && !IsLineTerminator(s[k])
    ensures SemicolonFrom(s, from) == Some(j)
    decreases j - from
  {
    if from < j {
      SemicolonScan(s, from + 1, j);
    }
  }
}
