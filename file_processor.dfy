/**
  Text extraction for an upload (`extract_text_from_file`): the upload is
  classified by the extension of its path under `uploads/`, and the text
  the PDF, slide-deck or OCR library yields is assembled and stripped.
  The libraries themselves are not modelled: what they yield for the
  upload's bytes is passed in as a `LibraryOutput`.
 */
module FileProcessor {
  import opened Wrappers
  import opened Text

  datatype FileKind = Pdf | Pptx | Image

  datatype ExtractError = UnsupportedFileType

  /** A slide-deck shape; `text` is `None` when the shape has no `text` attribute. */
  datatype Shape = Shape(text: Option<string>)

  /** A slide: its shapes in order, and the text of its notes frame when there is one. */
  datatype Slide = Slide(shapes: seq<Shape>, notes: Option<string>)

  /**
    What the parsing libraries yield for the saved upload: the text of each
    PDF page (`None` for a page without a text layer), the slides of a
    deck, and the string OCR reads from an image. Only the part that
    matches the upload's kind is used.
   */
  datatype LibraryOutput = LibraryOutput(pdfPages: seq<Option<string>>, slides: seq<Slide>, ocrText: string)

  // ---------------------------------------------------------------
  // Classification
  // ---------------------------------------------------------------

  /** `os.path.join("uploads", filename)` on POSIX: an absolute name replaces the directory. */
  function UploadPath(filename: string): (path: string)
    ensures |filename| > 0 && filename[0] == '/' ==> path == filename
    ensures |path| > 0 && (path[0] == '/' || path[0] == 'u')
  {
    if |filename| > 0 && filename[0] == '/' then filename else "uploads/" + filename
  }

  /** The text after the last "." of the lowercased upload path (all of it when there is no "."). */
  function Extension(filename: string): string {
    AfterLast(Lower(UploadPath(filename)), '.')
  }

  predicate IsSupportedExtension(ext: string) {
    ext == "pdf" || ext == "pptx" || ext == "png" || ext == "jpg" || ext == "jpeg"
  }

  /** The branch `extract_text_from_file` takes, or the `ValueError` for any other extension. */
  function Classify(filename: string): (r: Result<FileKind, ExtractError>)
    ensures r.Success? <==> IsSupportedExtension(Extension(filename))
  {
    KindOf(Extension(filename))
  }

  /** The branch an extension selects. */
  function KindOf(ext: string): (r: Result<FileKind, ExtractError>)
    ensures r.Success? <==> IsSupportedExtension(ext)
  {
    if ext == "pdf" then Success(Pdf)
    else if ext == "pptx" then Success(Pptx)
    else if ext in ["png", "jpg", "jpeg"] then Success(Image)
    else Failure(UnsupportedFileType)
  }

  /** The extension holds no ".", and it is what follows the last "." of the lowercased path. */
  lemma ExtensionIsLastSegment(filename: string)
    ensures var p, e := Lower(UploadPath(filename)), Extension(filename);
            && |e| <= |p| && e == p[|p| - |e|..]
            && (forall i :: 0 <= i < |e| ==> e[i] != '.')
            && (|e| < |p| ==> p[|p| - |e| - 1] == '.')
  {
  }

  lemma LowerTwice(s: string)
    ensures Lower(Lower(s)) == Lower(s)
  {
  }

  lemma LowerAppend(a: string, b: string)
    ensures Lower(a + b) == Lower(a) + Lower(b)
  {
  }

  /** Lower-casing the name first does not change the lowercased upload path. */
  lemma LowerUploadPath(filename: string)
    ensures Lower(UploadPath(Lower(filename))) == Lower(UploadPath(filename))
  {
    var low := Lower(filename);
    LowerTwice(filename);
    if |filename| > 0 && filename[0] == '/' {
      assert low[0] == '/';
    } else {
      assert |low| > 0 ==> low[0] != '/';
      LowerAppend("uploads/", low);
      LowerAppend("uploads/", filename);
    }
  }

  /** Upper and lower case in the name select the same branch. */
  lemma {:induction false} ClassifyIgnoresCase(filename: string)
    ensures Classify(Lower(filename)) == Classify(filename)
  {
    LowerUploadPath(filename);
    SameExtensionSameKind(Lower(filename), filename);
  }

  lemma SameExtensionSameKind(a: string, b: string)
    requires Lower(UploadPath(a)) == Lower(UploadPath(b))
    ensures Classify(a) == Classify(b)
  {
    assert Extension(a) == Extension(b);
  }

  /** A name without a "." is never supported: the extension is then the whole path, which starts with "u" or "/". */
  lemma {:induction false} NoDotUnsupported(filename: string)
    requires forall i :: 0 <= i < |filename| ==> filename[i] != '.'
    ensures Classify(filename) == Failure(UnsupportedFileType)
  {
    var path := UploadPath(filename);
    UploadPathNoDot(filename);
    var p := Lower(path);
    LowerNoDot(path);
    AfterLastWithoutSep(p, '.');
    assert Extension(filename) == p;
    assert p[0] == 'u' || p[0] == '/';
  }

  lemma UploadPathNoDot(filename: string)
    requires forall i :: 0 <= i < |filename| ==> filename[i] != '.'
    ensures forall i :: 0 <= i < |UploadPath(filename)| ==> UploadPath(filename)[i] != '.'
  {
    if !(|filename| > 0 && filename[0] == '/') {
      var path := "uploads/" + filename;
      assert forall i :: 8 <= i < |path| ==> path[i] == filename[i - 8];
    }
  }

  lemma LowerNoDot(s: string)
    requires forall i :: 0 <= i < |s| ==> s[i] != '.'
    ensures forall i :: 0 <= i < |Lower(s)| ==> Lower(s)[i] != '.'
  {
  }


  /** The extension of a name whose lowercased upload path is `stem.ext`, with no "." in `ext`. */
  lemma ExtensionOf(filename: string, stem: string, ext: string)
    requires Lower(UploadPath(filename)) == stem + "." + ext
    requires forall i :: 0 <= i < |ext| ==> ext[i] != '.'
    ensures Extension(filename) == ext
  {
    AfterLastOf(stem, '.', ext);
  }

  /** "Report.PDF" is read as a PDF. */
  lemma UpperCasePdf()
    ensures Classify("Report.PDF") == Success(Pdf)
  {
    ExtensionOf("Report.PDF", "uploads/report", "pdf");
  }

  /** A ".txt" upload raises the unsupported-type error. */
  lemma TextFileUnsupported()
    ensures Classify("notes.txt") == Failure(UnsupportedFileType)
  {
    ExtensionOf("notes.txt", "uploads/notes", "txt");
  }

  // ---------------------------------------------------------------
  // PDF
  // ---------------------------------------------------------------

  /** The text of each page in page order, `""` for a page that yields none. */
  function PageTexts(pages: seq<Option<string>>): (texts: seq<string>)
    ensures |texts| == |pages|
    ensures forall i :: 0 <= i < |pages| ==> texts[i] == pages[i].GetOr("")
  {
    seq(|pages|, i requires 0 <= i < |pages| => pages[i].GetOr(""))
  }

  /** The PDF branch's result: the page texts joined with newlines, then stripped. */
  function PdfExtraction(pages: seq<Option<string>>): (extracted: string)
    ensures NoEdgeSpace(extracted)
    ensures extracted == [] <==> AllSpace(Join("\n", PageTexts(pages)))
  {
    Strip(Join("\n", PageTexts(pages)))
  }

  /** The PDF branch: collects the page texts in a loop, joins them with "\n" and strips. */
  method PdfText(pages: seq<Option<string>>) returns (extracted: string)
    ensures extracted == PdfExtraction(pages)
    ensures NoEdgeSpace(extracted)
  {
    var text: seq<string> := [];
    for i := 0 to |pages|
      invariant |text| == i
      invariant forall k :: 0 <= k < i ==> text[k] == pages[k].GetOr("")
    {
      var pageText := pages[i].GetOr("");
      text := text + [pageText];
    }
    assert text == PageTexts(pages);
    extracted := Strip(Join("\n", text));
  }

  lemma {:induction false} JoinAllSpace(sep: string, ws: seq<string>)
    requires AllSpace(sep)
    requires forall i :: 0 <= i < |ws| ==> AllSpace(ws[i])
    ensures AllSpace(Join(sep, ws))
  {
    if |ws| > 1 {
      JoinAllSpace(sep, ws[1..]);
      var j := Join(sep, ws[1..]);
      assert Join(sep, ws) == ws[0] + sep + j;
      forall i | 0 <= i < |ws[0] + sep + j| ensures IsSpace((ws[0] + sep + j)[i]) {
        if i < |ws[0]| {
        } else if i < |ws[0]| + |sep| {
          assert (ws[0] + sep + j)[i] == sep[i - |ws[0]|];
        } else {
          assert (ws[0] + sep + j)[i] == j[i - |ws[0]| - |sep|];
        }
      }
    }
  }

  /** A PDF whose pages carry no text (a scan, with no OCR fallback) extracts to the empty string. */
  lemma PdfWithoutTextLayer(pages: seq<Option<string>>)
    requires forall i :: 0 <= i < |pages| ==> pages[i] == None
    ensures PdfExtraction(pages) == ""
  {
    JoinAllSpace("\n", PageTexts(pages));
  }

  // ---------------------------------------------------------------
  // Slide deck
  // ---------------------------------------------------------------

  /** The texts of the shapes that have one, in shape order. */
  function ShapeTexts(shapes: seq<Shape>): seq<string>
    decreases |shapes|
  {
    if shapes == [] then []
    else
      var last := shapes[|shapes| - 1];
      ShapeTexts(shapes[..|shapes| - 1]) + (if last.text.Some? then [last.text.value] else [])
  }

  /** A slide's texts: its shape texts, then its notes text when it has a notes frame. */
  function SlideTexts(slide: Slide): seq<string> {
    ShapeTexts(slide.shapes) + (if slide.notes.Some? then [slide.notes.value] else [])
  }

  /** All texts of a deck, slide by slide. */
  function DeckTexts(slides: seq<Slide>): (texts: seq<string>)
    decreases |slides|
  {
    if slides == [] then []
    else
      DeckTexts(slides[..|slides| - 1]) + SlideTexts(slides[|slides| - 1])
  }

  /** The texts of a deck are those of its first slides followed by those of the rest. */
  lemma {:induction false} DeckTextsAppend(a: seq<Slide>, b: seq<Slide>)
    ensures DeckTexts(a + b) == DeckTexts(a) + DeckTexts(b)
    decreases |b|
  {
    if b == [] {
      assert a + b == a;
    } else {
      var b' := b[..|b| - 1];
      var last := b[|b| - 1];
      AppendDropLast(a, b);
      DeckTextsLast(a + b);
      DeckTextsLast(b);
      DeckTextsAppend(a, b');
      AppendAssoc(DeckTexts(a), DeckTexts(b'), SlideTexts(last));
    }
  }

  lemma AppendDropLast(a: seq<Slide>, b: seq<Slide>)
    requires b != []
    ensures (a + b)[..|a + b| - 1] == a + b[..|b| - 1] && (a + b)[|a + b| - 1] == b[|b| - 1]
  {
    assert (a + b)[..|a + b| - 1] == a + b[..|b| - 1];
  }

  lemma DeckTextsLast(slides: seq<Slide>)
    requires slides != []
    ensures DeckTexts(slides) == DeckTexts(slides[..|slides| - 1]) + SlideTexts(slides[|slides| - 1])
  {
  }

  lemma AppendAssoc(x: seq<string>, y: seq<string>, z: seq<string>)
    ensures (x + y) + z == x + (y + z)
  {
  }

  /** A slide contributes exactly its own texts to the deck, in place. */
  lemma DeckTextsSingle(s: Slide)
    ensures DeckTexts([s]) == SlideTexts(s)
  {
    assert [s][..0] == [];
  }

  /** The slide-deck branch's result: all texts joined with newlines, then stripped. */
  function PptxExtraction(slides: seq<Slide>): (extracted: string)
    ensures NoEdgeSpace(extracted)
    ensures extracted == [] <==> AllSpace(Join("\n", DeckTexts(slides)))
  {
    Strip(Join("\n", DeckTexts(slides)))
  }

  /** The slide-deck branch: loops over slides and their shapes, appending texts, then joins and strips. */
  method PptxText(slides: seq<Slide>) returns (extracted: string)
    ensures extracted == PptxExtraction(slides)
    ensures NoEdgeSpace(extracted)
  {
    var allText: seq<string> := [];
    for i := 0 to |slides|
      invariant allText == DeckTexts(slides[..i])
    {
      var slide := slides[i];
      for k := 0 to |slide.shapes|
        invariant allText == DeckTexts(slides[..i]) + ShapeTexts(slide.shapes[..k])
      {
        var shape := slide.shapes[k];
        assert slide.shapes[..k + 1][..k] == slide.shapes[..k];
        if shape.text.Some? {
          allText := allText + [shape.text.value];
        }
      }
      assert slide.shapes[..|slide.shapes|] == slide.shapes;
      if slide.notes.Some? {
        allText := allText + [slide.notes.value];
      }
      assert slides[..i + 1][..i] == slides[..i];
    }
    assert slides[..|slides|] == slides;
    extracted := Strip(Join("\n", allText));
  }

  // ---------------------------------------------------------------
  // Image
  // ---------------------------------------------------------------

  /** The image branch: the OCR string with whitespace removed at both ends. */
  function ImageExtraction(ocrText: string): (extracted: string)
    ensures NoEdgeSpace(extracted)
    ensures extracted == [] <==> AllSpace(ocrText)
  {
    Strip(ocrText)
  }

  // ---------------------------------------------------------------
  // Dispatch
  // ---------------------------------------------------------------

  /**
    What `extract_text_from_file` returns for an upload: the unsupported-type
    error for an extension outside pdf, pptx, png, jpg and jpeg, and
    otherwise a text with no whitespace at either end.
   */
  function ExtractedText(filename: string, library: LibraryOutput): (r: Result<string, ExtractError>)
    ensures r.Failure? <==> !IsSupportedExtension(Extension(filename))
    ensures r.Success? ==> NoEdgeSpace(r.value)
  {
    match Classify(filename)
    case Failure(e) => Failure(e)
    case Success(Pdf) => Success(PdfExtraction(library.pdfPages))
    case Success(Pptx) => Success(PptxExtraction(library.slides))
    case Success(Image) => Success(ImageExtraction(library.ocrText))
  }

  /** The extraction step as the backend runs it, dispatching to the branch loops. */
  method ExtractTextFromFile(filename: string, library: LibraryOutput) returns (r: Result<string, ExtractError>)
    ensures r == ExtractedText(filename, library)
  {
    var kind := Classify(filename);
    match kind {
      case Failure(e) =>
        r := Failure(e);
      case Success(Pdf) =>
        var text := PdfText(library.pdfPages);
        r := Success(text);
      case Success(Pptx) =>
        var text := PptxText(library.slides);
        r := Success(text);
      case Success(Image) =>
        r := Success(ImageExtraction(library.ocrText));
    }
  }
}
