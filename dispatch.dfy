/**
 * app.py `process_uploaded_file`: choosing what is sent to Gemini next to the
 * instruction text, asking, and extracting the JSON. Every exception inside
 * it is caught and turned into `None`. The Gemini call is a parameter that
 * may fail; the instruction text itself is not part of this model.
 */
module Dispatch {
  import opened Wrappers
  import opened PyText
  import opened Normalizer
  import opened ResponseParser

  /** The content passed to `get_gemini_response` beside the prompt. */
  datatype Payload = SendText(text: string) | SendImage(part: Part)

  const ImagePrefix := "image/"

  /**
   * The content branch: an `image/` type wins over the PDF flag; a PDF sends
   * its text, or only its first page image; anything else leaves `response`
   * unbound, and like a failed PDF or an empty page list that ends in `None`.
   */
  function SelectPayload(upload: Upload, isPdf: bool, doc: Option<seq<Page>>): (p: Option<Payload>)
    ensures StartsWith(upload.mimeType, ImagePrefix) ==>
              p == Some(SendImage(Part(upload.mimeType, upload.data)))
    ensures !StartsWith(upload.mimeType, ImagePrefix) && !isPdf ==> p.None?
    ensures !StartsWith(upload.mimeType, ImagePrefix) && isPdf && doc.None? ==> p.None?
    ensures !StartsWith(upload.mimeType, ImagePrefix) && isPdf && doc.Some? ==>
              var pages := doc.value;
              (!Blank(JoinTexts(pages)) ==> p == Some(SendText(JoinTexts(pages)))) &&
              (Blank(JoinTexts(pages)) && pages != [] ==> p == Some(SendImage(Part(PngMime, pages[0].png)))) &&
              (Blank(JoinTexts(pages)) && pages == [] ==> p.None?)
  {
    if StartsWith(upload.mimeType, ImagePrefix) then
      Some(SendImage(ProcessImage(upload)[0]))
    else if isPdf then
      match ProcessPdf(doc)
      case Failure(_) => None
      case Success(TextContent(text)) => Some(SendText(text))
      case Success(ImageContent(parts)) => if |parts| == 0 then None else Some(SendImage(parts[0]))
    else
      None
  }

  /**
   * A JSON value comes back exactly when a payload was chosen, Gemini
   * answered, and the decoder accepted the slice of that answer, and it is
   * the decoder's value; every failure on the way is `None`.
   */
  function ProcessUploadedFile<J>(upload: Upload, isPdf: bool, doc: Option<seq<Page>>,
                                  gemini: Payload -> Option<string>,
                                  decode: string -> Option<J>): (r: Option<J>)
    ensures SelectPayload(upload, isPdf, doc).None? ==> r.None?
    ensures r.Some? ==> var reply := gemini(SelectPayload(upload, isPdf, doc).value);
                        reply.Some? && '{' in reply.value && '}' in reply.value &&
                        decode(JsonSlice(reply.value)) == Some(r.value)
    ensures SelectPayload(upload, isPdf, doc).Some? ==>
              var reply := gemini(SelectPayload(upload, isPdf, doc).value);
              (reply.Some? && '{' in reply.value && '}' in reply.value &&
               decode(JsonSlice(reply.value)).Some?)
              ==> r == decode(JsonSlice(reply.value))
  {
    match SelectPayload(upload, isPdf, doc)
    case None => None
    case Some(payload) =>
      match gemini(payload)
      case None => None
      case Some(reply) =>
        match ExtractJson(reply, decode)
        case Failure(_) => None
        case Success(value) => Some(value)
  }

  /**
   * An image upload ends exactly as Gemini's reply to the upload itself,
   * its MIME type and bytes unchanged, whatever the PDF flag and the PDF
   * reading say.
   */
  lemma ImageSentUnchanged<J>(upload: Upload, isPdf: bool, doc: Option<seq<Page>>,
                              gemini: Payload -> Option<string>, decode: string -> Option<J>)
    requires StartsWith(upload.mimeType, ImagePrefix)
    ensures var reply := gemini(SendImage(Part(upload.mimeType, upload.data)));
            ProcessUploadedFile(upload, isPdf, doc, gemini, decode) ==
              if reply.Some? && ExtractJson(reply.value, decode).Success?
              then Some(ExtractJson(reply.value, decode).value) else None
  {
  }

  /** A PDF with text on any page sends the full joined text, never an image. */
  lemma PdfTextSentWhole(upload: Upload, pages: seq<Page>)
    requires !StartsWith(upload.mimeType, ImagePrefix)
    requires exists i :: 0 <= i < |pages| && !Blank(pages[i].text)
    ensures SelectPayload(upload, true, Some(pages)) == Some(SendText(JoinTexts(pages)))
  {
    TextIffSomePageHasText(pages);
  }

  /**
   * A PDF without text sends only its first page, as PNG; one without pages
   * sends nothing.
   */
  lemma ScannedPdfSendsFirstPage(upload: Upload, pages: seq<Page>)
    requires !StartsWith(upload.mimeType, ImagePrefix)
    requires forall i :: 0 <= i < |pages| ==> Blank(pages[i].text)
    ensures pages != [] ==> SelectPayload(upload, true, Some(pages)) == Some(SendImage(Part(PngMime, pages[0].png)))
    ensures pages == [] ==> SelectPayload(upload, true, Some(pages)) == None
  {
    TextIffSomePageHasText(pages);
  }

  /** A file that is neither an image nor a flagged PDF yields `None` instead of an exception. */
  lemma OtherTypeYieldsNone<J>(upload: Upload, doc: Option<seq<Page>>,
                               gemini: Payload -> Option<string>, decode: string -> Option<J>)
    requires !StartsWith(upload.mimeType, ImagePrefix)
    ensures ProcessUploadedFile(upload, false, doc, gemini, decode) == None
  {
  }
}
