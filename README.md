# Invoice extraction pipeline: a Dafny model

The repository consists of two Streamlit scripts, `app.py` and `app2.py`. Each one reads an invoice
from an image or a PDF, asks Gemini for a JSON description of it, and stores the line items in the
PostgreSQL table `facturas`. This project models the deterministic core of the two scripts and
proves properties of it:

- **Document normalisation** (`normalizer.dfy`). The page texts of a PDF are joined in page order.
  If the joined text holds anything besides white space (Python's `str.isspace` set), the result
  is that text, unchanged. Otherwise the result is one `image/png` part per page, in page order.
  `process_pdf` (app.py) is a function. `process_pdf_file` (app2.py) is a method with the same two
  loops as the source, and it is proved equal to that function. An uploaded image becomes a single
  part with its own MIME type and bytes.
- **JSON slice extraction** (`response_parser.dfy`). The slice from the first `{` to the last `}`
  is decoded, with the indices and slicing working as in Python. The decoder (`json.loads`) is a
  function parameter that may reject its input.
- **Content selection** (`dispatch.dfy`), from app.py `process_uploaded_file`. An `image/` MIME
  type comes first. A PDF sends either its text or its first page image only. Anything else ends
  in `None`, and so does every failure on the way. The Gemini call is a function parameter that
  may fail.
- **Idempotent persistence** (`persistence.dfy`). The `facturas` table is a sequence of rows held
  by the class `FacturasTable`. The loop looks up `(invoice number, product code)` and inserts a
  denormalised row only when no row matches. Two versions are modelled:
  - app.py uses asyncpg, which commits every INSERT on its own, so rows inserted before an
    exception stay in the table.
  - app2.py commits once, after the loop. An exception skips the commit, and closing the
    connection then discards that run's inserts.
  In both versions, as modelled, the connection is closed on every path. app2.py as written fails
  before the loop and leaves its connection open (see "## Left out").

Decoded JSON reaches `save_invoice_data` as a dictionary. A key may be absent, which raises
`KeyError`; the model writes this as `None` and raises in the order Python evaluates the arguments.
A value may also be JSON `null`, which the driver stores as SQL NULL. In SQL, `NULL = NULL` is not
true, so the existence check never matches a NULL key. As a result, idempotence holds only for
invoices whose number and product codes are not null (`SecondRunInsertsNothing`). An invoice with
a null number is inserted again in full on every run (`NullNumberInsertsEveryItem`). `str()` turns
a null `Total` into the text `"None"`.

Behaviour of the code worth noting:
- A PDF with zero pages yields the image variant with an empty list. It does not yield an error.
  The app.py dispatch then fails on `content[0]` and returns `None`.
- A file that is neither an image nor a PDF yields `None` from `process_uploaded_file`. It does
  not raise a distinct format error.
- No schema validation is applied to the decoded JSON.
- The code does not return counts of inserted and skipped rows. The model returns only the
  exception, if any.

## Model

| member | source | states |
|---|---|---|
| `PyText.StripLeft` | app.py:43 | the leading part that `strip` removes is all white space, and what remains starts with a non-space character or is empty |
| `PyText.StripRight` | app.py:43 | the trailing part that `strip` removes is all white space, and what remains ends with a non-space character or is empty |
| `PyText.Strip` | app2.py:70 | `text.strip()` is the text with a blank prefix and a blank suffix removed; it is empty exactly when every character of the text is white space; otherwise it starts and ends with a non-space character |
| `PyText.Find` | app2.py:86 | `find` returns -1 exactly when the character is absent; otherwise it returns the index of its first occurrence |
| `PyText.RFind` | app2.py:87 | `rfind` returns -1 exactly when the character is absent; otherwise it returns the index of its last occurrence |
| `PyText.Slice` | app2.py:89 | `s[lo:hi]` holds the characters from `lo` up to but not including `hi`, and is empty when `hi` does not exceed `lo` |
| `Normalizer.ProcessImage` | app.py:30-35 | an uploaded image becomes a one-element part list carrying the upload's own MIME type and bytes unchanged |
| `Normalizer.ProcessPdf` | app.py:38-52 | an unreadable PDF fails; text with any non-space character gives exactly the joined page text; blank text gives one `image/png` part per page, in page order, holding that page's rendering |
| `Normalizer.JoinTextsAppend` | app.py:41 | joining the texts of two page lists back to back equals joining each list and concatenating the results |
| `Normalizer.PageTextAt` | app2.py:65-68 | every page's text appears whole in the joined text, right after the texts of the pages before it: nothing is dropped or reordered |
| `Normalizer.JoinBlankIffPagesBlank` | app2.py:65-70 | the joined text is blank exactly when every page's text is blank |
| `Normalizer.TextIffSomePageHasText` | app.py:41-50 | the text variant is chosen exactly when at least one page has a non-space character, so one text page is enough for the whole document |
| `Normalizer.ProcessPdfFile` | app2.py:62-81 | the loop version (accumulating the text, then appending page images) returns exactly what `ProcessPdf` returns, including the failure |
| `ResponseParser.ExtractJson` | app.py:55-62 | fails with "not found" exactly when `{` or `}` is missing; otherwise a slice the decoder accepts gives exactly the decoded value, and a slice it rejects fails |
| `ResponseParser.SurroundingTextIgnored` | app2.py:84-94 | text before the object that holds no `{`, and text after it that holds no `}`, changes neither the slice nor the result |
| `ResponseParser.ClosingBeforeOpeningFails` | app2.py:86-94 | when every `}` precedes every `{`, the slice is empty, and a decoder that rejects the empty string makes the extraction fail |
| `Dispatch.SelectPayload` | app.py:130-138 | an `image/` type sends the upload itself, whatever the PDF flag; otherwise a flagged PDF sends its full joined text when that has a non-space character, else the PNG of its first page, and nothing for an unreadable or page-less PDF; any other file sends nothing |
| `Dispatch.ImageSentUnchanged` | app.py:130-132 | an `image/` upload ends exactly as the decoded slice of Gemini's reply to the upload itself, with its MIME type and bytes unchanged, whatever the PDF flag and the PDF reading are |
| `Dispatch.PdfTextSentWhole` | app.py:133-136 | a PDF with text on any page sends the full joined text |
| `Dispatch.ScannedPdfSendsFirstPage` | app.py:137-138 | a PDF without text sends only the PNG of its first page; with no pages it yields nothing |
| `Dispatch.OtherTypeYieldsNone` | app.py:130-143 | a file that is neither an image nor a flagged PDF yields `None` instead of an exception |
| `Dispatch.ProcessUploadedFile` | app.py:107-143 | a value comes back exactly when a payload was chosen, Gemini replied with both braces and the decoder accepted the slice, and it is the decoder's value; every other case gives `None` |
| `Persistence.NewRow` | app2.py:111-116 | an INSERT is built exactly when all eight keys are present; the row repeats the invoice header, with `Total` passed through `str`, followed by the item's code, description and quantity |
| `Persistence.Step` | app.py:81-93 | one item: a pair that matches under SQL equality is skipped; an unmatched pair with every key present is inserted as the item's INSERT row; the only exception is an absent key, and it adds nothing; the step raises exactly when the number or the code is absent, or when no row matches and some key of the INSERT is absent, NULL keys included; an item without exception leaves its pair in the table |
| `Persistence.Run` | app.py:81-95 | the loop keeps the rows already present as they were, in place, adds at most one row per item, and raises only on an absent key |
| `Persistence.SaveAll` | app.py:80-95 | a missing item list raises before anything is inserted; with every key of every item present the save raises nothing; the rows already present are kept and at most one row per item is added |
| `Persistence.RunStopsAtFailure` | app.py:94-95 | once an item raises, later items change nothing |
| `Persistence.RunRaisesOnlyOnMissingKey` | app.py:81-92 | the loop completes when every item has all its keys, and an exception means some item lacks one |
| `Persistence.PartialOverlapInsertsOther` | app2.py:103-117 | of two items, one whose pair is already stored and one whose pair is not, exactly the second item's row is added and nothing is raised |
| `Persistence.RunOnlyAppends` | app.py:87-93 | each added row is built from the invoice header and one of the items |
| `Persistence.RunPreservesUnique` | app2.py:103-117 | if no two rows shared a non-NULL (invoice number, product code) pair before the loop, none do after it |
| `Persistence.RunStoresEveryItem` | app2.py:103-117 | after a loop with no exception, every item's (invoice number, product code) pair is in the table |
| `Persistence.RepeatedCodeSkipped` | app.py:81-93 | a later item that repeats an earlier item's non-NULL product code is skipped |
| `Persistence.SecondRunInsertsNothing` | app2.py:105-110 | running the loop over a table that already holds every item's non-NULL pair inserts nothing and raises nothing |
| `Persistence.RunAgainRepeats` | app2.py:103-117 | running the loop again over the table it produced, with non-NULL keys, changes nothing and ends as the first run did: with no exception, or with the same one |
| `Persistence.SaveAllIdempotent` | app.py:78-97 | saving the same invoice a second time, with non-NULL keys, leaves the table as the first save left it and raises what the first save raised, whether or not the first save raised |
| `Persistence.NullNumberInsertsEveryItem` | app.py:82-85 | with a NULL invoice number the lookup never matches, so every item is inserted on every run |
| `Persistence.FacturasTable.RowExists` | app2.py:105-109 | the `SELECT ... LIMIT 1` scan finds a row exactly when some row matches both keys under SQL equality |
| `Persistence.FacturasTable.InsertLineItems` | app.py:81-93 | the table and the raised exception after the loop are those of the step-by-step specification `Run` |
| `Persistence.FacturasTable.SaveInvoiceAutocommit` | app.py:78-97 | a failed connection changes nothing; otherwise the table is the specified one, including the rows inserted before an exception; old rows are kept; uniqueness is preserved; exactly one connection is opened when the connection succeeds, and it is closed on every path |
| `Persistence.FacturasTable.SaveInvoiceTransaction` | app2.py:97-122 | the table changes only when the whole loop succeeds and the commit is accepted, and then becomes the specified one; a refused commit is reported; uniqueness is preserved; exactly one connection is opened when the connection succeeds, and it is closed on every path |

## Left out

- The Streamlit page is not modelled: widgets, camera capture, the PIL re-encoding of the captured photo, the sidebar previews and `st.error` messages (app.py:146-185, app2.py:132-196). These are presentation only.
- app2.py's top-level flow (app2.py:147-193) is not modelled. It opens every upload as a PDF, images included. It sends all page images, not only the first one. It is script code around the core, not a core function.
- Loading configuration from `config.toml`, `.env` and environment variables is not modelled, because it is I/O.
- The Gemini call (`get_gemini_response`) is a function parameter that may fail. The instruction prompt text is not reproduced.
- PyMuPDF is not modelled. An opened document is given as its pages' text layers and PNG renderings, and any PyMuPDF failure is a missing document.
- `json.loads` is a function parameter. The JSON grammar is not modelled.
- Decoded JSON values are modelled as null or text. Numbers and booleans stand for their text form. A `Detalles de Productos` value that is not a list, and an item that is not a dictionary, raise `TypeError` in the source; these cases are not modelled.
- Connection setup for psycopg2, SQLAlchemy/MySQL and asyncpg, and the asyncio event-loop wrappers, are reduced to "the connection could be opened or not" plus a count of open connections.
- app2.py awaits the synchronous `get_postgresql_connection` (app2.py:98). That `await` raises before the loop runs, and the connection that `psycopg2.connect` opened is then never closed. The model does not reproduce this defect: it models the intended connect, loop, commit and close.
- A SELECT or INSERT that the database itself rejects is not modelled, for example on a type or length error or on asyncpg's strict parameter types (app.py:82-93, app2.py:105-117). In the source such an error raises mid-batch and then takes the same partial-commit path (app.py) or rollback path (app2.py) as a missing key. The loop model raises only on missing keys. A refused commit in app2.py is modelled.
- Exception message texts are not modelled; only the kind of error and the missing key are kept.
- The check-then-insert race between concurrent runs is not modelled, because the model is sequential.
