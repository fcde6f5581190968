# PDF labelling tool: annotation model in Dafny

This project models the core of a small desktop tool. The tool lets a user draw
rectangles on the pages of a PDF, tag each rectangle with text, and save or load
the tags as JSON. The model covers five parts, one Dafny module each, plus three
helper modules (`Results`, `Decimal`, `Json`):

- **`Labels`** (`models/label.py`): a `Label` holds `x`, `y`, a text and a
  `bbox`. The datatype constructor is the Python constructor: it copies its
  arguments unchanged. `ToDict` and `FromDict` are the dict codec, with the keys
  `x`, `y`, `label` and `bbox`.
- **`LabelStore`** (`core/label_manager.py`): maps each page number to an
  ordered list of labels. It keeps the key order of the Python dict, so the
  saved file lists pages in the same order as the source. Operations: add,
  get, delete-by-index, clear one page, clear all, and the total count. Save
  and load go through an abstract JSON value (`Json.JValue`), not text.
- **`PdfDocument`** (`core/pdf_document.py`): the page-navigation state.
  `Open` takes the page count the PDF library reports. Also modelled: next and
  previous page, close, the guard of `render_page`, and the page line of
  `get_page_info`.
- **`PdfCanvas`** (`ui/pdf_canvas.py`): the press/drag/release gesture over
  integer pointer positions. It proposes a min/max-normalised box when both
  sides exceed 5 pixels.
- **`LabelPanel`** and **`MainWindow`** (`ui/label_panel.py`,
  `ui/main_window.py`): the entry text with `str.strip()` applied, and the
  window's handlers as pure transitions of (document, store, gesture). Answers
  from dialogs, the PDF library and the file system are parameters.

## Behaviours worth knowing

The code does the following, and the model does the same:

- **Load is not all-or-nothing.** `load_from_file` empties the store first,
  then parses keys and records one page at a time. A bad key or a bad record
  leaves the earlier pages loaded. A top level that is not an object leaves
  the store empty. Only a read or JSON-syntax failure leaves the store
  untouched, because it happens before the reset. See
  `LabelStore.LoadKeepsPagesBeforeBadKey`, `LabelStore.LoadPagesAppend` and
  `MainWindow.LoadLabels`.
- **No box checks on load.** `from_dict` does not check that a box has four
  coordinates, that it is normalised, or that `x`/`y` equal its first corner.
  `Label.bbox` is therefore a sequence of any length; see
  `Labels.FromDictChecksNeitherArityNorAnchor`.
- **Page keys may be negative.** Any integer works as a page key, and negative
  ones survive a save and load (`"-3"`). `clear_page` on an absent page creates
  no entry.
- **A short box breaks drawing.** `_draw_labels` reads `bbox[0]` to `bbox[3]`
  of every label on the page, so a loaded box with fewer than four coordinates
  makes it raise `IndexError`. After a clean load the page is redrawn inside
  the same `try`, so the load is reported as failed even though the store
  already holds the new pages. When a drawn rectangle adds a label to such a
  page, the redraw raises inside `_on_mouse_up` before the press position and
  the preview are cleared, so the gesture does not return to idle. See
  `MainWindow.LoadLabels`, `MainWindow.Release` and
  `MainWindow.DragAddsNormalisedLabel`.

## Model

| member | source | states |
|---|---|---|
| `Labels.ToDict` | models/label.py:14-20 | the dict has exactly the keys `x`, `y`, `label`, `bbox`, in that order; the text is stored under `label`; the box becomes an array of its coordinates |
| `Labels.FromDict` | models/label.py:22-24 | decoding succeeds exactly when the value is a dict with the four keys, numbers under `x` and `y`, a string under `label` and a box that iterates to numbers; a non-dict fails; a missing key fails with `MissingKey` naming the first absent key in the order `x`, `y`, `label`, `bbox`; with all keys present, a box that is not iterable fails with `NotIterable`; on success each field is the dict's entry for its own key, and the box is what iterating the `bbox` value yields |
| `Labels.DictRoundTrip` | models/label.py:14-24 | `from_dict(to_dict(l)) == l` for every label, including boxes of any length |
| `Labels.FromDictChecksNeitherArityNorAnchor` | models/label.py:24 | a record with a 3-coordinate box and `x != bbox[0]` decodes to exactly those fields |
| `Json.Lookup` | models/label.py:24 | `d[key]` is missing exactly when no entry has that key; otherwise it is the value of the last entry with that key |
| `Decimal.IntToString` | core/label_manager.py:45 | `str(p)`: non-empty; a minus sign exactly for negative pages, followed by digits; no leading zero unless the number is a single digit |
| `Decimal.ParseInt` | core/label_manager.py:57 | `int(s)` succeeds exactly on an optional sign followed by at least one ASCII digit (leading zeros allowed); a minus sign gives a value of at most zero, and no minus sign a value of at least zero |
| `Decimal.IntRoundTrip` | core/label_manager.py:45-57 | `int(str(p)) == p` for every integer page number, negative ones included |
| `Decimal.IntToStringInjective` | core/label_manager.py:45 | two pages get the same key string only if they are the same page |
| `LabelStore.Get` | core/label_manager.py:19-21 | a page that holds labels is a key of the dict; a key reads as its stored list; reading never changes the store |
| `LabelStore.Add` | core/label_manager.py:13-17 | `l` is appended at the end of page `p`'s list, which is created when absent; every other page reads the same; the key set grows by `p`; the store invariant is kept |
| `LabelStore.Delete` | core/label_manager.py:23-26 | an in-range index removes exactly that element: earlier elements stay in place and later ones shift down by one; an absent page or out-of-range index leaves the store equal; other pages unchanged |
| `LabelStore.ClearPage` | core/label_manager.py:28-31 | a present page becomes empty and stays a key; an absent page leaves the store equal; other pages unchanged |
| `LabelStore.ClearAll` | core/label_manager.py:33-35 | no pages remain, every page reads empty, the total is 0 |
| `LabelStore.CountLabels` | core/label_manager.py:37-39 | the loop's sum equals the sum of all page lengths; it is 0 when every page is empty |
| `LabelStore.TotalAdd` | core/label_manager.py:37-39 | adding a label raises the total by one |
| `LabelStore.TotalDelete` | core/label_manager.py:37-39 | an in-range delete lowers the total by one; any other delete keeps it |
| `LabelStore.TotalClearPage` | core/label_manager.py:37-39 | clearing a page lowers the total by that page's length |
| `LabelStore.Save` | core/label_manager.py:41-58 | the saved object has one entry per page, in dict order; each key reads back with `int` as that page; keys never repeat; loading the saved object gives back the same store (same pages in the same order, same labels in the same order) with no error |
| `Results.MapAll` | core/label_manager.py:58 | a list comprehension whose call may raise yields every result in order when no call raises; otherwise it raises the error of the first call that does, and every earlier call succeeded |
| `LabelStore.DecodeAll` | core/label_manager.py:58 | a page's record list decodes exactly when every record does; the labels then correspond one-to-one and in order to the records; otherwise the error is that of the first record that fails |
| `LabelStore.LoadPages` | core/label_manager.py:56-58 | the load loop keeps the store invariant, and a page loaded earlier is never dropped later in the loop |
| `LabelStore.Load` | core/label_manager.py:50-58 | the result does not depend on the previous store; it always satisfies the invariant; a top level that is not an object leaves the store empty with an error; that a well-formed file loads to exactly its pages, in file order, is `LabelStore.LoadDecodablePages` |
| `LabelStore.LoadDecodablePages` | core/label_manager.py:55-58 | entries whose keys read back as distinct new pages and whose record lists all decode load without error, appending those pages to the order in file order, each holding its decoded labels |
| `LabelStore.LoadPagesAppend` | core/label_manager.py:56-58 | loading `fs + gs` means loading `fs`, stopping there if it raised, and otherwise continuing with `gs` from the store it left |
| `LabelStore.LoadKeepsPagesBeforeBadKey` | core/label_manager.py:55-58 | a key that is not an integer raises, but the pages of the entries before it stay loaded |
| `PdfDocument.Open` | core/pdf_document.py:17-26 | fails exactly when the library raised; on success the document is held, the path is recorded, the page count is the library's, the page is 0 and in range |
| `PdfDocument.Close` | core/pdf_document.py:28-32 | afterwards no document is loaded, so no page renders and the page line reads "No PDF loaded"; path and page counters are kept; closing with no loaded document changes nothing |
| `PdfDocument.RenderPage` | core/pdf_document.py:34-37 | nothing is rendered exactly when no document is held or the page number is at or past the page count; for an in-range document the page `_display_current_page` asks for renders exactly when a document is loaded |
| `PdfDocument.NextPage` | core/pdf_document.py:46-51 | returns true and moves forward by one exactly when `current_page < total_pages - 1`; otherwise the state is unchanged; the page stays in range |
| `PdfDocument.PrevPage` | core/pdf_document.py:53-58 | returns true and moves back by one exactly when `current_page > 0`; otherwise the state is unchanged; the page stays in range |
| `PdfDocument.NavigationStaysInRange` | core/pdf_document.py:46-58 | any sequence of next/previous presses keeps `0 <= current_page <= max(total_pages - 1, 0)` and never changes the page count or path |
| `PdfDocument.PageInfo` | core/pdf_document.py:68-72 | the line starts with `P` exactly when a document is loaded, and is "No PDF loaded" otherwise; for a loaded in-range document it is "Page: " followed by the one-based page number, " / " and the page count |
| `PdfDocument.PageInfoDistinguishes` | core/pdf_document.py:68-72 | two in-range documents showing the same page line are both unloaded, or both show the same page number and page count |
| `PdfCanvas.Normalize` | ui/pdf_canvas.py:82 | the box is normalised; its width and height are the absolute coordinate differences; its corners are the press and release coordinates |
| `PdfCanvas.MouseDown` | ui/pdf_canvas.py:59-61 | only the press position changes |
| `PdfCanvas.MouseDrag` | ui/pdf_canvas.py:63-73 | with no press position nothing changes; otherwise the preview exists afterwards |
| `PdfCanvas.MouseUp` | ui/pdf_canvas.py:75-91 | with no press or no preview, no box and no change; otherwise the state returns to idle; a box is proposed exactly when both sides exceed 5 and a handler is installed, and it is the normalised box |
| `PdfCanvas.DragThroughAfterPress` | ui/pdf_canvas.py:63-73 | after a press, drag events keep the press position and leave a preview exactly when at least one happened (or one already existed) |
| `PdfCanvas.StrokeFromIdle` | ui/pdf_canvas.py:59-91 | from idle, press/drag/release proposes a box exactly when a drag happened, a handler is installed and both sides exceed 5; with no drag the press position stays set and nothing is proposed |
| `PdfCanvas.StrokeSymmetric` | ui/pdf_canvas.py:82-87 | swapping press and release corners proposes the same box, or nothing in both cases |
| `PdfCanvas.DrawableAppend` | ui/pdf_canvas.py:41-49 | a page with one label appended can be drawn exactly when the page could be drawn before and the new box has at least four coordinates |
| `LabelPanel.Strip` | ui/label_panel.py:58-60 | the result is empty exactly when the entry is all whitespace; otherwise it neither starts nor ends with whitespace; it is the slice of the entry between whitespace-only borders |
| `LabelPanel.StripKeepsTrimmed` | ui/label_panel.py:60 | text without surrounding whitespace comes back unchanged |
| `LabelPanel.StripIdempotent` | ui/label_panel.py:58-60 | stripping an already stripped entry changes nothing |
| `MainWindow.OnRectangleDrawn` | ui/main_window.py:128-143 | the store is unchanged exactly when the entry is blank; otherwise the one label `Label(bbox[0], bbox[1], text, bbox)` is appended to the current page and no other page changes |
| `MainWindow.RectangleDrawnCount` | ui/main_window.py:128-139 | a drawn rectangle raises the label count by one, or by none when the text is blank |
| `MainWindow.DeleteSelected` | ui/main_window.py:145-152 | the first selected row is removed from the current page's list when it is in range, the rows after it shift up, and other pages stay as they were; with no selection or an out-of-range row nothing changes |
| `MainWindow.ClearPageLabels` | ui/main_window.py:154-159 | the current page is emptied only when confirmed; other pages never change |
| `MainWindow.OpenPdf` | ui/main_window.py:85-98 | a cancelled dialog or a failed open changes nothing; a successful open gives page 0 of the new document and an empty store |
| `MainWindow.SaveLabels` | ui/main_window.py:161-178 | refused exactly when no PDF path is recorded; with a path recorded, an empty dialog answer cancels, a failed write reports failure, and a chosen path with a successful write stores `Save(store)`, which loads back to the same store |
| `MainWindow.LoadLabels` | ui/main_window.py:180-193 | a cancelled dialog changes nothing; a read or parse failure reports an error and leaves the store; otherwise the store is replaced by the load result, and an error is reported exactly when the load raised or the redraw of a rendered current page meets a box of fewer than four coordinates |
| `MainWindow.LoadSavedLabels` | ui/main_window.py:180-193 | loading a file saved from a consistent store puts exactly that store back, and no error is reported when every box on the current page has four coordinates |
| `MainWindow.TurnPage` | ui/main_window.py:108-116 | Next moves one page forward unless on the last page, and Previous moves one page back unless on the first; nothing else in the document, the labels or the gesture changes |
| `MainWindow.Release` | ui/pdf_canvas.py:75-91 | with no proposed box it is the canvas release alone; with a proposed box the store changes as `_on_rectangle_drawn` adds the label, the document stays, and the gesture returns to idle unless the text was non-blank and a box already on the current page has fewer than four coordinates, in which case the press and the preview stay |
| `MainWindow.RunKeepsInvariant` | ui/main_window.py:85-193 | any sequence of user actions keeps the store's key order consistent, the page in range, and no preview without a press |
| `MainWindow.DragAddsNormalisedLabel` | ui/main_window.py:47-48 | a full drag with non-blank text and both sides over 5 appends one label with the normalised box, anchored at its top-left corner; it ends idle when every box already on the page has four coordinates, and otherwise keeps the press and the preview |
| `MainWindow.SaveReopenLoadScenario` | ui/main_window.py:85-193 | open 3 pages, label pages 0 and 2, save, reopen, load: the count was 2, page 1 was empty, and the loaded pages hold the original labels |

## Left out

- Rendering and widgets are not modelled. This covers tkinter, canvas
  drawing, image display, list-box text, message boxes, menus and `main.py`.
  Dialog answers become parameters. Apart from the exception a short box
  raises (see "Behaviours worth knowing"), their effects are only on the
  screen.
- A redraw that raises after next/previous page, a delete or a page clear
  leaves the modelled state as the handler already set it, because each of
  those handlers changes the document or the store before redrawing. The
  model does not record that the exception escaped to tkinter.
- PyMuPDF and PIL calls (`fitz.open`, `get_pixmap`, `Image.frombytes`) are
  foreign code. `Open` receives the page count or a failure. `RenderPage`
  returns the page index it would hand to the library.
- Zoom (`zoom_in`, `zoom_out`) is not modelled. It is floating-point stepping,
  and no modelled value depends on it.
- File I/O and JSON text are not modelled. Load receives the parsed value or a
  read/parse failure. Save reports whether the write succeeded. A write that
  fails part-way may leave a partial file; the model only says that it failed.
- JSON numbers are integers in the model. A file holding non-integer
  coordinates is outside it. Every coordinate the tool creates comes from an
  integer pointer event.
- `Labels.FromDict` is stricter on field types than `from_dict`. Python stores
  whatever value it finds. The model requires `x` and `y` to be numbers,
  `label` to be a string and the box items to be numbers, and fails otherwise.
- `LabelStore.LoadPages` and `Decimal.ParseInt` use a different key
  grammar from Python's `int()`. The model takes an optional sign and then
  ASCII digits. Python also accepts surrounding whitespace, `_` separators
  and non-ASCII digits, and the model rejects those keys.
- `Decimal.ParseInt` and `Decimal.IntToString` have no length limit.
  CPython (3.11 on, and the 3.7.14, 3.8.14, 3.9.14 and 3.10.7 security
  releases) refuses decimal conversions of more than 4300 digits with
  `ValueError`. A page key of 4301 or more digits therefore makes
  `load_from_file` raise, keeping the pages before it, while the model loads
  it. Saving a page number that large would raise as well; the model writes
  it. Pages the window creates are far below that size.
- `get_labels` returns the store's own list object, so a caller could mutate
  the store through it. The model uses values, and no modelled caller mutates
  the list.
- `LabelStore.Save`, `LabelStore.LoadPages` and `Json.Lookup`: a JSON object is
  modelled as the list of entries `json.load` produced, which has no repeated
  keys. Python's handling of repeated keys in the file text is not modelled.
- `PdfDocument.Close` is never called by the window. It is modelled but never
  used by the controller.
- A held document counts as loaded only when it has at least one page. The
  document object's truth value is its length, so a zero-page document shows
  "No PDF loaded".
- The canvas and the label panel each keep their own copy of the current page.
  `_display_current_page` updates those copies only when rendering returns an
  image. The model uses the document's page everywhere, including for the
  page whose boxes a redraw reads.
