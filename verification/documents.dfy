/** The document reader of app.py: `read_pdf`, `read_code_file` and
    `read_file_content`, plus the preview shown in the upload expander.
    The decoders themselves (UTF-8 decoding, PDF page extraction, pygments
    highlighting) are foreign code; their results arrive as fields of the
    uploaded file. */
module Documents {
  import opened Wrappers
  import opened Text

  /** The MIME type that routes an upload to the PDF reader. */
  const PdfMime: string := "application/pdf"

  /** The label `read_pdf` gives every PDF. */
  const PdfLabel: string := "pdf"

  /** The label `read_code_file` falls back to when highlighting fails. */
  const FallbackLabel: string := "text"

  /** An uploaded file as the reader sees it.
      - `utf8Text`: what `getvalue().decode("utf-8")` returns;
      - `pdfPages`: what `extract_text()` returns for each page, in order;
      - `highlightOk`: whether the `try` block of `read_code_file`
        (lexer lookup, formatting, style sheet) completed without raising. */
  datatype UploadedFile = UploadedFile(
    name: string,
    mimeType: string,
    utf8Text: string,
    pdfPages: seq<string>,
    highlightOk: bool)

  /** The tuple `(content, file_type, highlighted, css)` the readers return,
      with the HTML left out and the style sheet reduced to whether it is
      non-empty. */
  datatype FileRead = FileRead(content: string, fileType: string, styled: bool)

  /** The text `read_pdf` accumulates: every page followed by a newline. */
  function PdfText(pages: seq<string>): (text: string)
    decreases |pages|
  {
    if |pages| == 0 then ""
    else PdfText(pages[..|pages| - 1]) + pages[|pages| - 1] + "\n"
  }

  /** The accumulated PDF text is the pages joined by newlines with a final
      newline, i.e. `"\n".join(pages + [""])`. */
  lemma {:induction false} PdfTextIsJoin(pages: seq<string>)
    ensures PdfText(pages) == Join(pages + [""], '\n')
    decreases |pages|
  {
    var parts := pages + [""];
    assert parts[..|parts| - 1] == pages;
    if |pages| > 0 {
      var init := pages[..|pages| - 1];
      var last := pages[|pages| - 1];
      PdfTextIsJoin(init);
      assert Join(parts, '\n') == Join(pages, '\n') + "\n";
      if |init| > 0 {
        assert (init + [""])[..|init|] == init;
        assert Join(init + [""], '\n') == Join(init, '\n') + "\n";
      }
    }
  }

  /** Round trip: when no page text holds a newline, splitting the PDF text on
      newlines recovers the pages, followed by one empty part. */
  lemma {:induction false} PdfPagesRecovered(pages: seq<string>)
    requires FreeOf(pages, '\n')
    ensures Split(PdfText(pages), '\n') == pages + [""]
  {
    PdfTextIsJoin(pages);
    var parts := pages + [""];
    forall i | 0 <= i < |parts| ensures '\n' !in parts[i] {
      if i < |pages| {
        assert parts[i] == pages[i];
      }
    }
    SplitJoin(parts, '\n');
  }

  /** `read_pdf`: the concatenated page text, labelled "pdf". */
  function ReadPdf(pages: seq<string>): (r: FileRead)
    ensures r.content == Join(pages + [""], '\n')
    ensures r.fileType == PdfLabel && !r.styled
    ensures |pages| > 0 ==> |r.content| > 0 && r.content[|r.content| - 1] == '\n'
  {
    PdfTextIsJoin(pages);
    FileRead(PdfText(pages), PdfLabel, false)
  }

  /** The type label of a highlighted code file: `name.split('.')[-1]`. */
  function TypeLabel(name: string): (ext: string)
    ensures IsLastSegment(ext, name, '.')
  {
    SplitLastIsLastSegment(name, '.');
    var parts := Split(name, '.');
    parts[|parts| - 1]
  }

  /** `read_code_file`: the decoded text, labelled with the name's last
      `.`-segment and styled when highlighting succeeds, otherwise labelled
      "text" with no style sheet. */
  function ReadCodeFile(f: UploadedFile): (r: FileRead)
    ensures r.content == f.utf8Text
    ensures r.styled == f.highlightOk
    ensures f.highlightOk ==> IsLastSegment(r.fileType, f.name, '.')
    ensures !f.highlightOk ==> r.fileType == FallbackLabel
  {
    if f.highlightOk then FileRead(f.utf8Text, TypeLabel(f.name), true)
    else FileRead(f.utf8Text, FallbackLabel, false)
  }

  /** `read_file_content`: PDFs by MIME type, everything else as code or text.
      Whatever the route, the label holds no `.`. */
  function ReadFileContent(f: UploadedFile): (r: FileRead)
    ensures f.mimeType == PdfMime ==> r == ReadPdf(f.pdfPages)
    ensures f.mimeType != PdfMime ==> r == ReadCodeFile(f)
    ensures '.' !in r.fileType
    ensures r.styled ==> f.mimeType != PdfMime && f.highlightOk
  {
    if f.mimeType == PdfMime then ReadPdf(f.pdfPages) else ReadCodeFile(f)
  }

  /** The plain-text preview of the upload expander: present exactly when no
      style sheet came back (the highlighted HTML is shown otherwise). */
  function PlainPreview(r: FileRead): (p: Option<string>)
    ensures p.Some? <==> !r.styled
    ensures p.Some? ==> p.value == Preview(r.content)
  {
    if r.styled then None else Some(Preview(r.content))
  }
}
