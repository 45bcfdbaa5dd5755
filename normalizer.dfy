/**
 * Document normalisation: an uploaded image or PDF becomes either the PDF's
 * text or a list of PNG page images (app.py `process_image`, `process_pdf`;
 * app2.py `process_pdf_file`). PyMuPDF is not modelled: an opened document is
 * given as its pages, each with its text layer and its PNG rendering, and a
 * document PyMuPDF cannot open or read is `None`.
 */
module Normalizer {
  import opened Wrappers
  import opened PyText

  newtype byte = b: int | 0 <= b < 256

  type Bytes = seq<byte>

  /** One page: `page.get_text("text")` and `page.get_pixmap().tobytes("png")`. */
  datatype Page = Page(text: string, png: Bytes)

  /** A Streamlit upload: its declared MIME type and its bytes. */
  datatype Upload = Upload(mimeType: string, data: Bytes)

  /** `{"mime_type": ..., "data": ...}`: one image part for the model. */
  datatype Part = Part(mimeType: string, data: Bytes)

  /** `{"type": "text", "content": ...}` or `{"type": "image", "content": [...]}` */
  datatype Content = TextContent(text: string) | ImageContent(parts: seq<Part>)

  /** The `ValueError` raised when PyMuPDF fails on the document. */
  datatype NormalizeError = PdfError

  const PngMime := "image/png"

  /** `"".join(page.get_text("text") for page in doc)` */
  function JoinTexts(pages: seq<Page>): string
  {
    if pages == [] then "" else pages[0].text + JoinTexts(pages[1..])
  }

  /** One PNG part per page, in page order. */
  function RenderPages(pages: seq<Page>): seq<Part>
  {
    seq(|pages|, i requires 0 <= i < |pages| => Part(PngMime, pages[i].png))
  }

  /** app.py `process_image`: the upload itself, as the only part. */
  function ProcessImage(upload: Upload): (parts: seq<Part>)
    ensures |parts| == 1
    ensures parts[0].mimeType == upload.mimeType && parts[0].data == upload.data
  {
    [Part(upload.mimeType, upload.data)]
  }

  /**
   * app.py `process_pdf`: the joined text when it holds anything but white
   * space, otherwise every page as a PNG part.
   */
  function ProcessPdf(doc: Option<seq<Page>>): (r: Result<Content, NormalizeError>)
    ensures r.Failure? <==> doc.None?
    ensures doc.Some? && !Blank(JoinTexts(doc.value)) ==>
              r == Success(TextContent(JoinTexts(doc.value)))
    ensures doc.Some? && Blank(JoinTexts(doc.value)) ==>
              r.Success? && r.value.ImageContent? &&
              |r.value.parts| == |doc.value| &&
              forall i :: 0 <= i < |doc.value| ==> r.value.parts[i] == Part(PngMime, doc.value[i].png)
  {
    match doc
    case None => Failure(PdfError)
    case Some(pages) =>
      var text := JoinTexts(pages);
      if Strip(text) != [] then Success(TextContent(text))
      else Success(ImageContent(RenderPages(pages)))
  }

  /** Joining distributes over concatenation of page lists. */
  lemma {:induction false} JoinTextsAppend(a: seq<Page>, b: seq<Page>)
    ensures JoinTexts(a + b) == JoinTexts(a) + JoinTexts(b)
  {
    if a == [] {
      assert a + b == b;
    } else {
      assert (a + b)[1..] == a[1..] + b;
      JoinTextsAppend(a[1..], b);
    }
  }

  /**
   * Nothing is dropped or reordered: page `i`'s text sits in the joined text
   * right after the texts of the pages before it.
   */
  lemma PageTextAt(pages: seq<Page>, i: nat)
    requires i < |pages|
    ensures var off := |JoinTexts(pages[..i])|;
            off + |pages[i].text| <= |JoinTexts(pages)| &&
            JoinTexts(pages)[off..off + |pages[i].text|] == pages[i].text
  {
    assert pages == pages[..i] + ([pages[i]] + pages[i + 1..]);
    JoinTextsAppend(pages[..i], [pages[i]] + pages[i + 1..]);
    JoinTextsAppend([pages[i]], pages[i + 1..]);
    assert JoinTexts([pages[i]]) == pages[i].text by {
      assert [pages[i]][1..] == [];
    }
  }

  /** The joined text is blank exactly when every page's text is. */
  lemma {:induction false} JoinBlankIffPagesBlank(pages: seq<Page>)
    ensures Blank(JoinTexts(pages)) <==> forall i :: 0 <= i < |pages| ==> Blank(pages[i].text)
  {
    if pages != [] {
      JoinBlankIffPagesBlank(pages[1..]);
      BlankConcat(pages[0].text, JoinTexts(pages[1..]));
      if forall i :: 1 <= i < |pages| ==> Blank(pages[i].text) {
        assert forall i :: 0 <= i < |pages[1..]| ==> Blank(pages[1..][i].text) by {
          forall i | 0 <= i < |pages[1..]| ensures Blank(pages[1..][i].text) {
            assert pages[1..][i] == pages[i + 1];
          }
        }
      }
    }
  }

  /**
   * The choice is made once for the whole document: the text is sent as soon
   * as any single page has text, and images only when no page has any.
   */
  lemma TextIffSomePageHasText(pages: seq<Page>)
    ensures ProcessPdf(Some(pages)).Success?
    ensures ProcessPdf(Some(pages)).value.TextContent? <==>
              exists i :: 0 <= i < |pages| && !Blank(pages[i].text)
  {
    JoinBlankIffPagesBlank(pages);
  }

  /** app2.py `process_pdf_file`: the same decision, computed with two loops. */
  method ProcessPdfFile(doc: Option<seq<Page>>) returns (r: Result<Content, NormalizeError>)
    ensures r == ProcessPdf(doc)
  {
    if doc.None? {
      return Failure(PdfError);
    }
    var pages := doc.value;
    var pdfText := "";
    var n := 0;
    while n < |pages|
      invariant 0 <= n <= |pages|
      invariant pdfText == JoinTexts(pages[..n])
    {
      assert pages[..n + 1] == pages[..n] + [pages[n]];
      JoinTextsAppend(pages[..n], [pages[n]]);
      assert JoinTexts([pages[n]]) == pages[n].text by {
        assert [pages[n]][1..] == [];
      }
      pdfText := pdfText + pages[n].text;
      n := n + 1;
    }
    assert pages[..n] == pages;
    if Strip(pdfText) != [] {
      return Success(TextContent(pdfText));
    }
    var images: seq<Part> := [];
    n := 0;
    while n < |pages|
      invariant 0 <= n <= |pages|
      invariant images == RenderPages(pages[..n])
    {
      images := images + [Part(PngMime, pages[n].png)];
      n := n + 1;
    }
    assert pages[..n] == pages;
    return Success(ImageContent(images));
  }
}
