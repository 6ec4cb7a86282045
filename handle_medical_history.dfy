/**
 * The text-extraction stage of the medical-record pipeline: routing a file by
 * its extension, the .docx paragraph join, the PDF text-layer pass with its
 * OCR fallback, and the line-layout reconstruction of image OCR.
 *
 * Pixel operations and OCR engines are not modelled: an image is described by
 * the list of enhancement steps applied to it, and Tesseract, PyPDF2,
 * PyMuPDF and python-docx are the inputs gathered in FileContents.
 */
module HandleMedicalHistory {
  import opened Wrappers
  import opened Strings

  /** The mode that turns on image preprocessing and enhancement; every
      other mode string behaves as "original". */
  const ProcessedMode := "processed"

  /** One image transformation, in the order applied. */
  datatype Step =
    | Grayscale
    | OtsuThreshold
    | MorphOpen
    | Contrast(factor: real)
    | Sharpness(factor: real)
    | Brightness(factor: real)
    | ColorBoost(factor: real)

  /** process_image_for_ocr: grayscale (for a three-channel image), Otsu
      threshold and a morphological opening in processed mode; nothing
      otherwise. */
  function PrepareSteps(mode: string, threeChannel: bool): seq<Step> {
    if mode == ProcessedMode then (if threeChannel then [Grayscale] else []) + [OtsuThreshold, MorphOpen]
    else []
  }

  const PageEnhancement: seq<Step> := [Contrast(2.0), Sharpness(2.0), Brightness(1.2)]

  /** The steps applied to a rendered PDF page before OCR. */
  function PdfPageSteps(mode: string): seq<Step> {
    PrepareSteps(mode, true) + (if mode == ProcessedMode then PageEnhancement else [])
  }

  /** The steps applied to an image file before OCR. */
  function ImageSteps(mode: string, threeChannel: bool): seq<Step> {
    PrepareSteps(mode, threeChannel) + (if mode == ProcessedMode then PageEnhancement + [ColorBoost(1.5)] else [])
  }

  /** Processed mode ends with contrast, sharpness and brightness on PDF pages
      and with those three followed by colour on images; any other mode applies
      no step at all. */
  lemma EnhancementChains(mode: string, threeChannel: bool)
    ensures mode != ProcessedMode ==> PdfPageSteps(mode) == [] && ImageSteps(mode, threeChannel) == []
    ensures mode == ProcessedMode ==>
      PdfPageSteps(mode) == [Grayscale, OtsuThreshold, MorphOpen, Contrast(2.0), Sharpness(2.0), Brightness(1.2)]
      && ImageSteps(mode, threeChannel) == PrepareSteps(mode, threeChannel) + PageEnhancement + [ColorBoost(1.5)]
    ensures mode == ProcessedMode && threeChannel ==> ImageSteps(mode, threeChannel) == PdfPageSteps(mode) + [ColorBoost(1.5)]
  {
  }

  // ---------------------------------------------------------------------
  // Routing by extension

  predicate IsPathSep(c: char) {
    c == '\\' || c == '/'
  }

  /** Index of the last path separator, or -1. */
  function LastSep(p: string): (r: int)
    ensures -1 <= r < |p|
    ensures r >= 0 ==> IsPathSep(p[r])
    ensures forall k :: r < k < |p| ==> !IsPathSep(p[k])
  {
    var a := RFindChar(p, '\\');
    var b := RFindChar(p, '/');
    if a > b then a else b
  }

  /** os.path.splitext with '\\' and '/' as separators: the extension starts
      at the last '.' of the last path component, unless that component is
      made of leading dots up to that '.'. */
  function SplitExt(p: string): (string, string) {
    var sep := LastSep(p);
    var dot := RFindChar(p, '.');
    if dot > sep && exists k :: sep + 1 <= k < dot && p[k] != '.' then (p[..dot], p[dot..]) else (p, "")
  }

  /** SplitExt cuts the path in two, and a non-empty extension is one '.'
      followed by no '.' and no separator. */
  lemma SplitExtParts(p: string)
    ensures SplitExt(p).0 + SplitExt(p).1 == p
    ensures var ext := SplitExt(p).1;
      ext == [] || (ext[0] == '.' && forall k :: 1 <= k < |ext| ==> ext[k] != '.' && !IsPathSep(ext[k]))
    ensures var (root, ext) := SplitExt(p);
      ext != [] ==> exists k :: 0 <= k < |root| && root[k] != '.' && forall m :: k <= m < |root| ==> !IsPathSep(root[m])
  {
    var sep := LastSep(p);
    var dot := RFindChar(p, '.');
    if dot > sep && exists k :: sep + 1 <= k < dot && p[k] != '.' {
      var k :| sep + 1 <= k < dot && p[k] != '.';
      assert SplitExt(p) == (p[..dot], p[dot..]);
      CutParts(p, sep, dot, k);
    } else {
      assert SplitExt(p) == (p, "");
    }
  }

  /** The two parts of a cut at the last '.', with no separator after sep
      and k a character other than '.' between the two. */
  lemma CutParts(p: string, sep: int, dot: int, k: int)
    requires 0 <= dot < |p| && p[dot] == '.' && forall j :: dot < j < |p| ==> p[j] != '.'
    requires 0 <= sep + 1 <= k < dot && p[k] != '.'
    requires forall j :: sep < j < |p| ==> !IsPathSep(p[j])
    ensures p[..dot] + p[dot..] == p
    ensures var ext := p[dot..];
      ext[0] == '.' && forall m :: 1 <= m < |ext| ==> ext[m] != '.' && !IsPathSep(ext[m])
    ensures var root := p[..dot];
      root[k] != '.' && forall m :: k <= m < |root| ==> !IsPathSep(root[m])
  {
    var ext := p[dot..];
    assert forall m :: 1 <= m < |ext| ==> ext[m] == p[dot + m];
  }

  /** The extractor a file is sent to. */
  datatype Route = TxtRoute | DocxRoute | PdfRoute | ImageRoute | NoRoute

  const ImageExtensions: seq<string> := [".png", ".jpg", ".jpeg", ".bmp", ".tiff"]

  /** The routing of extract_text on the lower-cased extension: exactly
      eight extensions are accepted, and only ones that start with '.'. */
  function RouteOf(ext: string): (r: Route)
    ensures r != NoRoute <==> ext in [".txt", ".docx", ".pdf"] + ImageExtensions
    ensures r != NoRoute ==> |ext| >= 4 && ext[0] == '.'
  {
    if ext == ".txt" then TxtRoute
    else if ext == ".docx" then DocxRoute
    else if ext == ".pdf" then PdfRoute
    else if ext in ImageExtensions then ImageRoute
    else NoRoute
  }

  /** The lower-cased extension of a path. */
  function ExtensionOf(path: string): string {
    Lower(SplitExt(path).1)
  }

  function UnsupportedError(ext: string): string {
    "Định dạng file '" + ext + "' chưa được hỗ trợ"
  }

  // ---------------------------------------------------------------------
  // .docx

  /** extract_text_from_docx: the paragraphs' text, collected in order and
      joined by "\n". */
  method ExtractDocx(paragraphs: seq<string>) returns (text: string)
    ensures text == Join(paragraphs, "\n")
  {
    var fullText: seq<string> := [];
    for i := 0 to |paragraphs|
      invariant fullText == paragraphs[..i]
    {
      fullText := fullText + [paragraphs[i]];
    }
    assert paragraphs[..|paragraphs|] == paragraphs;
    text := Join(fullText, "\n");
  }

  /** For paragraphs without line breaks, the .docx text has one line per
      paragraph, in order (an empty paragraph is an empty line), and
      #paragraphs - 1 separators. */
  lemma DocxLines(paragraphs: seq<string>)
    requires |paragraphs| >= 1
    requires forall i :: 0 <= i < |paragraphs| ==> '\n' !in paragraphs[i]
    ensures Split(Join(paragraphs, "\n"), '\n') == paragraphs
    ensures CountChar(Join(paragraphs, "\n"), '\n') == |paragraphs| - 1
  {
    SplitJoin(paragraphs, '\n');
    JoinSeparatorCount(paragraphs, '\n');
  }

  // ---------------------------------------------------------------------
  // PDF

  /** What the text-layer pass appends for one page: its text plus "\n", or
      just "\n" for a page without text (None or ""). */
  function PageChunk(page: Option<string>): string {
    if page.Some? && page.value != "" then page.value + "\n" else "\n"
  }

  /** The text-layer result for pages in order. */
  function TextLayer(pages: seq<Option<string>>): string {
    if pages == [] then "" else TextLayer(pages[..|pages| - 1]) + PageChunk(pages[|pages| - 1])
  }

  function PageText(page: Option<string>): string {
    if page.Some? then page.value else ""
  }

  /** The page texts, a missing text counting as "". */
  function PageTexts(pages: seq<Option<string>>): (r: seq<string>)
    ensures |r| == |pages| && forall i :: 0 <= i < |pages| ==> r[i] == PageText(pages[i])
  {
    seq(|pages|, i requires 0 <= i < |pages| => PageText(pages[i]))
  }

  lemma PageChunkText(page: Option<string>)
    ensures PageChunk(page) == PageText(page) + "\n"
  {
  }

  /** The text layer is the page texts joined by "\n" with a final "\n". */
  lemma {:induction false} TextLayerIsJoin(pages: seq<Option<string>>)
    requires |pages| >= 1
    ensures TextLayer(pages) == Join(PageTexts(pages), "\n") + "\n"
  {
    var n := |pages|;
    if n == 1 {
      PageChunkText(pages[0]);
      assert TextLayer(pages) == TextLayer([]) + PageChunk(pages[0]);
      assert PageTexts(pages) == [PageText(pages[0])];
    } else {
      var init := pages[..n - 1];
      TextLayerIsJoin(init);
      TextLayerSnoc(pages);
      JoinAppend(PageTexts(init), PageText(pages[n - 1]), "\n");
      NewlineAssoc(Join(PageTexts(init), "\n"), PageText(pages[n - 1]));
    }
  }

  /** One more page: its text and "\n" after the others', and one more
      page text. */
  lemma TextLayerSnoc(pages: seq<Option<string>>)
    requires |pages| >= 2
    ensures TextLayer(pages) == TextLayer(pages[..|pages| - 1]) + (PageText(pages[|pages| - 1]) + "\n")
    ensures PageTexts(pages) == PageTexts(pages[..|pages| - 1]) + [PageText(pages[|pages| - 1])]
  {
    var n := |pages|;
    PageChunkText(pages[n - 1]);
    assert TextLayer(pages) == TextLayer(pages[..n - 1]) + PageChunk(pages[n - 1]);
    var a, b := PageTexts(pages), PageTexts(pages[..n - 1]) + [PageText(pages[n - 1])];
    assert |a| == |b|;
    forall i | 0 <= i < n ensures a[i] == b[i] {
      if i < n - 1 {
        assert pages[..n - 1][i] == pages[i];
      }
    }
  }

  lemma NewlineAssoc(j: string, x: string)
    ensures (j + "\n") + (x + "\n") == (j + "\n" + x) + "\n"
  {
  }

  /** The text-layer pass of extract_text_from_pdf. */
  method TextLayerPass(pages: seq<Option<string>>) returns (text: string)
    ensures text == TextLayer(pages)
  {
    text := "";
    for i := 0 to |pages|
      invariant text == TextLayer(pages[..i])
    {
      assert pages[..i + 1][..i] == pages[..i];
      var pageText := pages[i];
      text := text + (if pageText.Some? && pageText.value != "" then pageText.value + "\n" else "\n");
    }
    assert pages[..|pages|] == pages;
  }

  const MinTextLayerLength := 100

  /** The fallback condition: the stripped text layer is empty or shorter than
      100 characters. */
  predicate NeedsOcr(text: string) {
    PyStrip(text) == "" || |PyStrip(text)| < MinTextLayerLength
  }

  /** The OCR result: every page's string followed by "\n\n". */
  function OcrText(texts: seq<string>): (r: string)
    ensures |r| >= 2 * |texts|
    ensures texts != [] ==> r[|r| - 2..] == "\n\n"
  {
    if texts == [] then "" else OcrText(texts[..|texts| - 1]) + texts[|texts| - 1] + "\n\n"
  }

  /** The OCR result is the page strings joined by "\n\n", with a final "\n\n". */
  lemma {:induction false} OcrTextIsJoin(texts: seq<string>)
    requires |texts| >= 1
    ensures OcrText(texts) == Join(texts, "\n\n") + "\n\n"
  {
    var n := |texts|;
    if n > 1 {
      OcrTextIsJoin(texts[..n - 1]);
      JoinAppend(texts[..n - 1], texts[n - 1], "\n\n");
      assert texts[..n - 1] + [texts[n - 1]] == texts;
    }
  }

  /** The OCR strings of all pages, each page rendered and prepared with the
      given steps. */
  function OcrPages(pageCount: nat, ocr: (nat, seq<Step>) -> string, steps: seq<Step>): (r: seq<string>)
    ensures |r| == pageCount && forall i :: 0 <= i < pageCount ==> r[i] == ocr(i, steps)
  {
    seq(pageCount, i requires 0 <= i < pageCount => ocr(i, steps))
  }

  /** What extract_text_from_pdf returns: the OCR fallback runs iff the
      stripped text layer is shorter than 100 characters; a text layer that
      passes is returned unchanged. */
  function PdfText(pages: seq<Option<string>>, ocr: (nat, seq<Step>) -> string, mode: string): (r: string)
    ensures |PyStrip(TextLayer(pages))| >= MinTextLayerLength ==> r == TextLayer(pages)
    ensures |PyStrip(TextLayer(pages))| < MinTextLayerLength ==> r == OcrText(OcrPages(|pages|, ocr, PdfPageSteps(mode)))
  {
    var text := TextLayer(pages);
    if NeedsOcr(text) then OcrText(OcrPages(|pages|, ocr, PdfPageSteps(mode))) else text
  }

  /** extract_text_from_pdf: `pages` are PyPDF2's per-page texts and `ocr(i,
      steps)` is Tesseract's string for page i after the steps. */
  method ExtractPdf(pages: seq<Option<string>>, ocr: (nat, seq<Step>) -> string, mode: string)
    returns (text: string)
    ensures text == PdfText(pages, ocr, mode)
  {
    text := TextLayerPass(pages);
    if PyStrip(text) == "" || |PyStrip(text)| < MinTextLayerLength {
      text := OcrPass(|pages|, ocr, PdfPageSteps(mode));
    }
  }

  /** The OCR fallback loop over the pages. */
  method OcrPass(pageCount: nat, ocr: (nat, seq<Step>) -> string, steps: seq<Step>) returns (ocrText: string)
    ensures ocrText == OcrText(OcrPages(pageCount, ocr, steps))
  {
    ocrText := "";
    for pageNum := 0 to pageCount
      invariant ocrText == OcrText(OcrPages(pageNum, ocr, steps))
    {
      assert OcrPages(pageNum + 1, ocr, steps)[..pageNum] == OcrPages(pageNum, ocr, steps);
      var pageText := ocr(pageNum, steps);
      ocrText := ocrText + pageText + "\n\n";
    }
  }

  // ---------------------------------------------------------------------
  // Image layout reconstruction

  /** One entry of Tesseract's image_to_data: a word and its line number. */
  datatype Word = Word(text: string, lineNum: int)

  /** A word that survives the `word.strip()` test. */
  predicate Kept(w: Word) {
    PyStrip(w.text) != ""
  }

  /** The words of line ln that keep accepts, in their original order. */
  function WordsOn(words: seq<Word>, ln: int, keep: Word -> bool): seq<string> {
    if words == [] then []
    else
      var w := words[|words| - 1];
      WordsOn(words[..|words| - 1], ln, keep) + (if keep(w) && w.lineNum == ln then [w.text] else [])
  }

  /** The kept words of line ln, in their original order. */
  function LineWords(words: seq<Word>, ln: int): seq<string> {
    WordsOn(words, ln, Kept)
  }

  lemma LineWordsSnoc(words: seq<Word>, i: nat, ln: int)
    requires i < |words|
    ensures LineWords(words[..i + 1], ln) ==
      LineWords(words[..i], ln) + (if Kept(words[i]) && words[i].lineNum == ln then [words[i].text] else [])
  {
    assert words[..i + 1][..i] == words[..i];
  }

  /** The line numbers of the words that keep accepts. */
  function NumsOf(words: seq<Word>, keep: Word -> bool): set<int> {
    set i | 0 <= i < |words| && keep(words[i]) :: words[i].lineNum
  }

  /** The line numbers that carry at least one kept word. */
  function LineNums(words: seq<Word>): set<int> {
    NumsOf(words, Kept)
  }

  /** A line number carries words exactly when some kept word has it. */
  lemma LineNumsNonEmpty(words: seq<Word>, ln: int)
    ensures ln in LineNums(words) <==> LineWords(words, ln) != []
  {
    NumsOfNonEmpty(words, ln, Kept);
  }

  lemma {:induction false} NumsOfNonEmpty(words: seq<Word>, ln: int, keep: Word -> bool)
    ensures ln in NumsOf(words, keep) <==> WordsOn(words, ln, keep) != []
  {
    if words != [] {
      var n := |words|;
      var init := words[..n - 1];
      NumsOfNonEmpty(init, ln, keep);
      assert forall i :: 0 <= i < n - 1 ==> init[i] == words[i];
      if ln in NumsOf(init, keep) {
        var i :| 0 <= i < n - 1 && keep(init[i]) && init[i].lineNum == ln;
        assert keep(words[i]) && words[i].lineNum == ln;
      }
      if ln in NumsOf(words, keep) {
        var i :| 0 <= i < n && keep(words[i]) && words[i].lineNum == ln;
        if i < n - 1 {
          assert ln in NumsOf(init, keep);
        }
      }
    }
  }

  /** m is the least element of s. */
  predicate IsMin(s: set<int>, m: int) {
    m in s && forall x :: x in s ==> m <= x
  }

  lemma {:induction false} MinExists(s: set<int>)
    requires s != {}
    ensures exists m :: IsMin(s, m)
    decreases |s|
  {
    assert (forall y :: y !in s) ==> s == {};
    var x :| x in s;
    if s != {x} {
      MinExists(s - {x});
      var m :| IsMin(s - {x}, m);
      assert forall y :: y in s ==> y == x || y in s - {x};
      if x < m {
        assert IsMin(s, x);
      } else {
        assert IsMin(s, m);
      }
    } else {
      assert IsMin(s, x);
    }
  }

  /** The elements of s in ascending order (Python's sorted on a key set). */
  ghost function SortedSet(s: set<int>): seq<int>
    decreases |s|
  {
    if s == {} then []
    else
      MinExists(s);
      var m :| IsMin(s, m);
      [m] + SortedSet(s - {m})
  }

  /** The sorted keys start with the minimum, whichever way it is found. */
  lemma SortedSetMin(s: set<int>, m: int)
    requires IsMin(s, m)
    ensures SortedSet(s) == [m] + SortedSet(s - {m})
  {
    MinExists(s);
    var m' :| IsMin(s, m');
    assert m' == m;
  }

  /** SortedSet lists every element of s once, in strictly ascending order. */
  lemma {:induction false} SortedSetSpec(s: set<int>)
    ensures forall x :: x in SortedSet(s) <==> x in s
    ensures forall i, j :: 0 <= i < j < |SortedSet(s)| ==> SortedSet(s)[i] < SortedSet(s)[j]
    decreases |s|
  {
    if s != {} {
      MinExists(s);
      var m :| IsMin(s, m);
      SortedSetMin(s, m);
      SortedSetSpec(s - {m});
      var rest := SortedSet(s - {m});
      assert forall x :: x in rest ==> x in s && x != m && m < x;
      assert forall j :: 0 <= j < |rest| ==> rest[j] in rest;
      assert SortedSet(s) == [m] + rest;
    }
  }

  /** The kept words grouped by line number. */
  ghost function Groups(words: seq<Word>): map<int, seq<string>> {
    map ln | ln in LineNums(words) :: LineWords(words, ln)
  }

  /** For each key in ascending order, its words joined by " ". */
  ghost function Formatted(lines: map<int, seq<string>>): seq<string> {
    SortedSetSpec(lines.Keys);
    var keys := SortedSet(lines.Keys);
    seq(|keys|, k requires 0 <= k < |keys| => assert keys[k] in keys; Join(lines[keys[k]], " "))
  }

  /** The formatted lines: one per line number carrying kept words, in
      ascending order of line number, each made of that line's kept words
      joined by " ". */
  ghost function Layout(words: seq<Word>): (r: seq<string>)
    ensures var keys := SortedSet(LineNums(words));
      |r| == |keys|
      && (forall x :: x in keys <==> x in LineNums(words))
      && (forall i, j :: 0 <= i < j < |keys| ==> keys[i] < keys[j])
      && (forall k :: 0 <= k < |keys| ==> r[k] == Join(LineWords(words, keys[k]), " "))
  {
    SortedSetSpec(LineNums(words));
    assert Groups(words).Keys == LineNums(words);
    Formatted(Groups(words))
  }

  /** What extract_text_from_image returns, `raw` being image_to_string's
      string and `words` image_to_data's words. */
  ghost function ImageText(mode: string, raw: string, words: seq<Word>): (r: string)
    ensures mode != ProcessedMode ==> r == raw
    ensures (forall i :: 0 <= i < |words| ==> !Kept(words[i])) ==> r == raw
  {
    assert (forall i :: 0 <= i < |words| ==> !Kept(words[i])) ==> LineNums(words) == {};
    if mode == ProcessedMode && Layout(words) != [] then Join(Layout(words), "\n") else raw
  }

  /** lines maps exactly the line numbers of ws that carry kept words to
      those words. */
  ghost predicate Grouped(lines: map<int, seq<string>>, ws: seq<Word>) {
    (forall ln :: ln in lines <==> LineWords(ws, ln) != []) &&
    (forall ln :: ln in lines ==> lines[ln] == LineWords(ws, ln))
  }

  /** One word of the grouping loop: a kept word is appended to its line's
      list, created empty when missing. */
  lemma GroupStep(words: seq<Word>, i: nat, lines: map<int, seq<string>>, lines': map<int, seq<string>>)
    requires i < |words| && Grouped(lines, words[..i])
    requires !Kept(words[i]) ==> lines' == lines
    requires Kept(words[i]) ==> (lines' ==
      lines[words[i].lineNum := (if words[i].lineNum in lines then lines[words[i].lineNum] else []) + [words[i].text]])
    ensures Grouped(lines', words[..i + 1])
  {
    forall ln ensures (ln in lines' <==> LineWords(words[..i + 1], ln) != [])
                   && (ln in lines' ==> lines'[ln] == LineWords(words[..i + 1], ln))
    {
      LineWordsSnoc(words, i, ln);
      assert ln in lines <==> LineWords(words[..i], ln) != [];
      assert ln in lines ==> lines[ln] == LineWords(words[..i], ln);
    }
  }

  /** The per-word grouping loop: the dict from line number to its kept words. */
  method GroupLines(words: seq<Word>) returns (lines: map<int, seq<string>>)
    ensures lines == Groups(words)
  {
    lines := map[];
    GroupedNone(words);
    for i := 0 to |words|
      invariant Grouped(lines, words[..i])
    {
      ghost var before := lines;
      lines := AddWord(lines, words[i]);
      GroupStep(words, i, before, lines);
    }
    assert words[..|words|] == words;
    GroupedIsGroups(lines, words);
  }

  /** The loop body: a word that survives strip() is appended to its line's
      list, which is created empty when missing. */
  method AddWord(lines: map<int, seq<string>>, word: Word) returns (lines': map<int, seq<string>>)
    ensures !Kept(word) ==> lines' == lines
    ensures Kept(word) ==> (lines' ==
      lines[word.lineNum := (if word.lineNum in lines then lines[word.lineNum] else []) + [word.text]])
  {
    lines' := lines;
    if PyStrip(word.text) != "" {
      var lineNum := word.lineNum;
      if lineNum !in lines' {
        lines' := lines'[lineNum := []];
      }
      lines' := lines'[lineNum := lines'[lineNum] + [word.text]];
    }
  }

  /** Before the first word nothing is grouped. */
  lemma GroupedNone(words: seq<Word>)
    ensures Grouped(map[], words[..0])
  {
    assert words[..0] == [];
  }

  /** The grouping of all the words is Groups. */
  lemma GroupedIsGroups(lines: map<int, seq<string>>, words: seq<Word>)
    requires Grouped(lines, words)
    ensures lines == Groups(words)
  {
    GroupedKeys(lines, words);
    GroupedValues(lines, words);
  }

  lemma GroupedKeys(lines: map<int, seq<string>>, words: seq<Word>)
    requires Grouped(lines, words)
    ensures forall ln :: ln in lines <==> ln in LineNums(words)
  {
    forall ln ensures ln in lines <==> ln in LineNums(words) {
      LineNumsNonEmpty(words, ln);
    }
  }

  lemma GroupedValues(lines: map<int, seq<string>>, words: seq<Word>)
    requires forall ln :: ln in lines ==> lines[ln] == LineWords(words, ln)
    requires forall ln :: ln in lines <==> ln in LineNums(words)
    ensures lines == Groups(words)
  {
    var g := Groups(words);
    assert forall ln :: ln in g <==> ln in LineNums(words);
    assert forall ln :: ln in g ==> g[ln] == LineWords(words, ln);
    SameEntries(lines, g);
  }

  /** Two maps with the same keys and the same value under each key are equal. */
  lemma SameEntries(m: map<int, seq<string>>, g: map<int, seq<string>>)
    requires forall k :: k in m <==> k in g
    requires forall k :: k in m ==> m[k] == g[k]
    ensures m == g
  {
    assert forall k :: k in m <==> k in g;
    assert forall k :: k in m ==> m[k] == g[k];
  }

  /** The formatting loop over the sorted line numbers. */
  method FormatLines(lines: map<int, seq<string>>) returns (formatted: seq<string>)
    ensures formatted == Formatted(lines)
  {
    var remaining := lines.Keys;
    ghost var done: seq<int> := [];
    ghost var keys := SortedSet(lines.Keys);
    formatted := [];
    while remaining != {}
      invariant remaining <= lines.Keys
      invariant done + SortedSet(remaining) == keys
      invariant |formatted| == |done|
      invariant forall k :: 0 <= k < |done| ==> done[k] in lines && formatted[k] == Join(lines[done[k]], " ")
      decreases |remaining|
    {
      MinExists(remaining);
      var lineNum :| IsMin(remaining, lineNum);
      SortedSetMin(remaining, lineNum);
      formatted := formatted + [Join(lines[lineNum], " ")];
      done := done + [lineNum];
      remaining := remaining - {lineNum};
    }
    assert done == keys;
  }

  /** extract_text_from_image: the raw OCR string, replaced in processed mode
      by the reconstructed layout when at least one line carries words. */
  method ExtractImage(mode: string, threeChannel: bool, imageToString: seq<Step> -> string,
                      imageToData: seq<Step> -> seq<Word>)
    returns (text: string)
    ensures text == ImageText(mode, imageToString(ImageSteps(mode, threeChannel)),
                              imageToData(ImageSteps(mode, threeChannel)))
  {
    var steps := ImageSteps(mode, threeChannel);
    text := imageToString(steps);
    if mode == ProcessedMode {
      var lines := GroupLines(imageToData(steps));
      var formatted := FormatLines(lines);
      if formatted != [] {
        text := Join(formatted, "\n");
      }
    }
  }

  // ---------------------------------------------------------------------
  // extract_text

  /** The outputs of the libraries extract_text reads a file through. */
  datatype FileContents = FileContents(
    text: string,                          // open(...).read() of a .txt file
    paragraphs: seq<string>,               // python-docx paragraph texts
    pdfPages: seq<Option<string>>,         // PyPDF2 page.extract_text() per page
    pdfOcr: (nat, seq<Step>) -> string,    // Tesseract on page i after the steps
    threeChannel: bool,                    // the image file has three channels
    imageToString: seq<Step> -> string,    // Tesseract image_to_string
    imageToData: seq<Step> -> seq<Word>)   // Tesseract image_to_data

  /** extract_text: dispatch on the lower-cased extension; the mode reaches
      only the image extractor, since PDFs run with the default "processed"
      mode; an unknown extension raises ValueError. */
  method ExtractText(path: string, mode: string, file: FileContents) returns (r: Result<string, string>)
    ensures RouteOf(ExtensionOf(path)) == TxtRoute ==> r == Ok(file.text)
    ensures RouteOf(ExtensionOf(path)) == DocxRoute ==> r == Ok(Join(file.paragraphs, "\n"))
    ensures RouteOf(ExtensionOf(path)) == PdfRoute ==> r == Ok(PdfText(file.pdfPages, file.pdfOcr, ProcessedMode))
    ensures RouteOf(ExtensionOf(path)) == ImageRoute ==>
      r == Ok(ImageText(mode, file.imageToString(ImageSteps(mode, file.threeChannel)),
                        file.imageToData(ImageSteps(mode, file.threeChannel))))
    ensures RouteOf(ExtensionOf(path)) == NoRoute ==> r == Err(UnsupportedError(ExtensionOf(path)))
  {
    var ext := Lower(SplitExt(path).1);
    if ext == ".txt" {
      r := Ok(file.text);
    } else if ext == ".docx" {
      var t := ExtractDocx(file.paragraphs);
      r := Ok(t);
    } else if ext == ".pdf" {
      var t := ExtractPdf(file.pdfPages, file.pdfOcr, ProcessedMode);
      r := Ok(t);
    } else if ext in ImageExtensions {
      var t := ExtractImage(mode, file.threeChannel, file.imageToString, file.imageToData);
      r := Ok(t);
    } else {
      r := Err(UnsupportedError(ext));
    }
  }
}
