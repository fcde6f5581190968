/** The application controller: the menu, button and canvas handlers of the
    main window as transitions of (document, label store, drawing gesture).
    Dialogs and message boxes change no modelled state; what a dialog or the
    file system returns is a parameter.  A redraw changes no modelled state
    either, but it raises when a box on the page has fewer than four
    coordinates, and where that exception cuts a handler short the model
    follows it. */
module MainWindow {
  import opened Results
  import opened Json
  import opened Labels
  import opened LabelStore
  import opened PdfDocument
  import opened PdfCanvas
  import opened LabelPanel

  datatype App = App(doc: Document, store: Store, gesture: Gesture)

  /** Start-up: no document, no labels, the rectangle handler installed. */
  const Start: App := App(Initial, Empty, Gesture(None, false, true))

  /** The invariants every handler keeps. */
  ghost predicate Invariant(app: App) {
    Valid(app.store) && InRange(app.doc) && Consistent(app.gesture)
  }

  /** `_on_rectangle_drawn`: with blank entry text nothing happens (a warning
      is shown); otherwise one label, anchored at the box's top-left corner and
      carrying the stripped text, is appended to the current page. */
  function OnRectangleDrawn(app: App, bbox: Box, entry: string): (r: App)
    ensures r.doc == app.doc && r.gesture == app.gesture
    ensures r.store == app.store <==> AllSpace(entry)
    ensures !AllSpace(entry) ==>
              var page := app.doc.currentPage;
              && Get(r.store, page) == Get(app.store, page) + [Label(bbox.x1, bbox.y1, Strip(entry), Coords(bbox))]
              && forall q :: q != page ==> Get(r.store, q) == Get(app.store, q)
    ensures Invariant(app) ==> Invariant(r)
  {
    var text := Strip(entry);
    if text == "" then app
    else
      var r := app.(store := Add(app.store, app.doc.currentPage, Label(bbox.x1, bbox.y1, text, Coords(bbox))));
      assert |Get(r.store, app.doc.currentPage)| == |Get(app.store, app.doc.currentPage)| + 1;
      r
  }

  /** `_delete_selected_label`: deletes the first selected row of the list on
      the current page; with no selection nothing happens. */
  function DeleteSelected(app: App, selection: seq<int>): (r: App)
    ensures |selection| == 0 ==> r == app
    ensures r.doc == app.doc && r.gesture == app.gesture
    ensures var page := app.doc.currentPage;
            |selection| > 0 && 0 <= selection[0] < |Get(app.store, page)| ==>
              Get(r.store, page) == Get(app.store, page)[..selection[0]] + Get(app.store, page)[selection[0] + 1..]
    ensures |selection| > 0 && !(0 <= selection[0] < |Get(app.store, app.doc.currentPage)|) ==> r == app
    ensures forall q :: q != app.doc.currentPage ==> Get(r.store, q) == Get(app.store, q)
    ensures Invariant(app) ==> Invariant(r)
  {
    if |selection| > 0 then app.(store := Delete(app.store, app.doc.currentPage, selection[0])) else app
  }

  /** `_clear_page_labels`: clears the current page, only when the user confirms. */
  function ClearPageLabels(app: App, confirmed: bool): (r: App)
    ensures !confirmed ==> r == app
    ensures confirmed ==> Get(r.store, app.doc.currentPage) == []
    ensures forall q :: q != app.doc.currentPage ==> Get(r.store, q) == Get(app.store, q)
    ensures r.doc == app.doc && r.gesture == app.gesture
    ensures Invariant(app) ==> Invariant(r)
  {
    if confirmed then app.(store := ClearPage(app.store, app.doc.currentPage)) else app
  }

  /** `_open_pdf`: `path` is what the file dialog returned (empty when
      cancelled), `pageCount` what the PDF library reported for it (`None` when
      it raised).  Labels are cleared only after a successful open. */
  function OpenPdf(app: App, path: string, pageCount: Option<nat>): (r: App)
    ensures path == "" || pageCount.None? ==> r == app
    ensures path != "" && pageCount.Some? ==>
              && r.store == Empty
              && r.doc == Document(true, Some(path), pageCount.value, 0)
              && r.gesture == app.gesture
    ensures Invariant(app) ==> Invariant(r)
  {
    if path == "" then app
    else
      match Open(path, pageCount)
      case Failure(_) => app
      case Success(d) => app.(doc := d, store := ClearAll(app.store))
  }

  /** What `_save_labels` did. */
  datatype SaveOutcome =
    | NoPdf                 // refused: no document was ever opened
    | Cancelled             // the save dialog returned no path
    | WriteFailed           // the file could not be written
    | Written(data: JValue) // the JSON value written to the chosen file

  /** `_save_labels`: refused unless a PDF path is recorded; `path` is the save
      dialog's answer and `writable` whether the file system accepted the
      write.  No handler state changes. */
  function SaveLabels(app: App, path: string, writable: bool): (r: SaveOutcome)
    ensures r == NoPdf <==> app.doc.filePath.None? || app.doc.filePath.value == ""
    ensures r.Written? ==> path != "" && writable && r.data == Save(app.store)
    ensures app.doc.filePath.Some? && app.doc.filePath.value != "" ==>
              && (path == "" ==> r == Cancelled)
              && (path != "" && !writable ==> r == WriteFailed)
              && (path != "" && writable ==> r == Written(Save(app.store)))
    ensures r.Written? && Valid(app.store) ==> Load(r.data) == Loaded(app.store, None)
  {
    if app.doc.filePath.None? || app.doc.filePath.value == "" then NoPdf
    else if path == "" then Cancelled
    else if !writable then WriteFailed
    else
      Written(Save(app.store))
  }

  /** `_load_labels`: `path` is the open dialog's answer and `read` the JSON
      value parsed from that file, `None` when reading or parsing failed.  Those
      failures happen before the store is reset and leave it unchanged; once
      the file is parsed the store is replaced by whatever the load loop
      reached, even if it then raised.  After a clean load the current page
      is redisplayed inside the same `try`, so a loaded box of fewer than four
      coordinates on a page that renders is reported as a failure too.
      Returns the new state and whether an error was reported. */
  function LoadLabels(app: App, path: string, read: Option<JValue>): (r: (App, bool))
    ensures path == "" ==> r == (app, false)
    ensures path != "" && read.None? ==> r == (app, true)
    ensures path != "" && read.Some? ==>
              && r.0 == app.(store := Load(read.value).store)
              && (r.1 <==> || Load(read.value).error.Some?
                           || (RenderPage(app.doc, app.doc.currentPage).Some?
                               && !Drawable(Get(r.0.store, app.doc.currentPage))))
    ensures path != "" && read.Some? && InRange(app.doc) ==>
              (r.1 <==> || Load(read.value).error.Some?
                        || (Truthy(app.doc) && !Drawable(Get(r.0.store, app.doc.currentPage))))
    ensures Invariant(app) ==> Invariant(r.0)
  {
    if path == "" then (app, false)
    else
      match read
      case None => (app, true)
      case Some(data) =>
        var loaded := Load(data);
        var page := app.doc.currentPage;
        var redrawRaises := RenderPage(app.doc, page).Some? && !Drawable(Get(loaded.store, page));
        (app.(store := loaded.store), loaded.error.Some? || redrawRaises)
  }

  /** `_next_page` and `_prev_page`: the page moves, the labels stay. */
  function TurnPage(app: App, forward: bool): (r: App)
    ensures r.store == app.store && r.gesture == app.gesture
    ensures var cur := app.doc.currentPage;
            r.doc == app.doc.(currentPage := r.doc.currentPage)
            && r.doc.currentPage == (if forward && cur < app.doc.totalPages - 1 then cur + 1
                                     else if !forward && cur > 0 then cur - 1
                                     else cur)
    ensures Invariant(app) ==> Invariant(r)
  {
    app.(doc := if forward then NextPage(app.doc).0 else PrevPage(app.doc).0)
  }

  /** Mouse release on the canvas: if the gesture machine proposes a box, the
      rectangle handler runs with the current entry text, and only after it
      returns does `_on_mouse_up` go back to idle.  A handler that added a
      label redraws the page; when a box already on it has fewer than four
      coordinates that raises, and the press and the preview stay. */
  function Release(app: App, p: Point, entry: string): (r: App)
    ensures var (g, proposal) := MouseUp(app.gesture, p);
            proposal.None? ==> r == app.(gesture := g)
    ensures var (g, proposal) := MouseUp(app.gesture, p);
            proposal.Some? ==>
              && r.doc == app.doc
              && r.store == OnRectangleDrawn(app, proposal.value, entry).store
              && r.gesture == if !AllSpace(entry) && !Drawable(Get(app.store, app.doc.currentPage))
                              then app.gesture else g
    ensures Invariant(app) ==> Invariant(r)
  {
    var (g, proposal) := MouseUp(app.gesture, p);
    match proposal
    case None => app.(gesture := g)
    case Some(bbox) =>
      var drawn := OnRectangleDrawn(app, bbox, entry);
      var page := app.doc.currentPage;
      DrawableAppend(Get(app.store, page), Label(bbox.x1, bbox.y1, Strip(entry), Coords(bbox)));
      if !AllSpace(entry) && !Drawable(Get(drawn.store, page)) then drawn
      else drawn.(gesture := g)
  }

  /** The user actions the main window handles. */
  datatype Event =
    | OpenFile(path: string, pageCount: Option<nat>)
    | Turn(forward: bool)
    | Press(at: Point)
    | Move(to: Point)
    | Lift(at: Point, entry: string)
    | DeleteRow(selection: seq<int>)
    | ClearCurrentPage(confirmed: bool)
    | SaveFile(path: string, writable: bool)
    | LoadFile(path: string, read: Option<JValue>)

  function Step(app: App, e: Event): App {
    match e
    case OpenFile(path, n) => OpenPdf(app, path, n)
    case Turn(forward) => TurnPage(app, forward)
    case Press(p) => app.(gesture := MouseDown(app.gesture, p))
    case Move(p) => app.(gesture := MouseDrag(app.gesture, p))
    case Lift(p, entry) => Release(app, p, entry)
    case DeleteRow(selection) => DeleteSelected(app, selection)
    case ClearCurrentPage(confirmed) => ClearPageLabels(app, confirmed)
    case SaveFile(_, _) => app
    case LoadFile(path, read) => LoadLabels(app, path, read).0
  }

  function Run(app: App, events: seq<Event>): App
    decreases |events|
  {
    if |events| == 0 then app else Run(Step(app, events[0]), events[1..])
  }

  /** From start-up, whatever the user does, the store keeps each page once in
      its order, the page shown stays within the document, and no preview
      rectangle exists without a press. */
  lemma {:induction false} RunKeepsInvariant(app: App, events: seq<Event>)
    requires Invariant(app)
    ensures Invariant(Run(app, events))
    decreases |events|
  {
    if |events| > 0 {
      RunKeepsInvariant(Step(app, events[0]), events[1..]);
    }
  }

  lemma StartInvariant()
    ensures Invariant(Start)
  {
  }

  /** A drawn label raises the label count by one; blank text leaves it. */
  lemma RectangleDrawnCount(app: App, bbox: Box, entry: string)
    requires Valid(app.store)
    ensures Total(OnRectangleDrawn(app, bbox, entry).store)
            == if AllSpace(entry) then Total(app.store) else Total(app.store) + 1
  {
    if !AllSpace(entry) {
      TotalAdd(app.store, app.doc.currentPage, Label(bbox.x1, bbox.y1, Strip(entry), Coords(bbox)));
    }
  }

  /** A full drag from idle with non-blank text and both sides over 5 pixels
      adds one label whose box is normalised and whose anchor is the box's
      top-left corner, whichever way the drag went.  The gesture ends idle
      unless a box already on the page is too short to draw, in which case
      the press and the preview stay. */
  lemma {:induction false} DragAddsNormalisedLabel(app: App, a: Point, moves: seq<Point>, b: Point, entry: string)
    requires app.gesture == Gesture(None, false, true)
    requires |moves| > 0 && LargeEnough(a, b) && !AllSpace(entry)
    ensures var g := DragThrough(MouseDown(app.gesture, a), moves);
            var r := Release(app.(gesture := g), b, entry);
            var bbox := Normalize(a, b);
            && Get(r.store, app.doc.currentPage)
               == Get(app.store, app.doc.currentPage) + [Label(bbox.x1, bbox.y1, Strip(entry), Coords(bbox))]
            && bbox.x1 <= bbox.x2 && bbox.y1 <= bbox.y2
            && r.gesture == if Drawable(Get(app.store, app.doc.currentPage)) then Gesture(None, false, true)
                            else Gesture(Some(a), true, true)
  {
    DragThroughAfterPress(MouseDown(app.gesture, a), moves);
  }

  const Fig1: Label := Label(10, 10, "Fig1", [10, 10, 50, 40])
  const Tbl1: Label := Label(5, 5, "Tbl1", [5, 5, 60, 30])
  const ScenarioDoc: Document := Document(true, Some("doc.pdf"), 3, 0)
  const Idle: Gesture := Gesture(None, false, true)

  lemma ScenarioFirstLabel()
    ensures OnRectangleDrawn(OpenPdf(Start, "doc.pdf", Some(3)), Box(10, 10, 50, 40), "Fig1")
            == App(ScenarioDoc, Store([0], map[0 := [Fig1]]), Idle)
  {
    StripKeepsTrimmed("Fig1");
    var ready := OpenPdf(Start, "doc.pdf", Some(3));
    assert ready == App(ScenarioDoc, Empty, Idle);
    assert Coords(Box(10, 10, 50, 40)) == [10, 10, 50, 40];
    assert Add(Empty, 0, Fig1) == Store([0], map[0 := [Fig1]]) by {
      assert Get(Empty, 0) + [Fig1] == [Fig1];
      assert Empty.order + [0] == [0];
    }
  }

  lemma ScenarioThirdPageLabel()
    ensures OnRectangleDrawn(TurnPage(TurnPage(App(ScenarioDoc, Store([0], map[0 := [Fig1]]), Idle), true), true),
                             Box(5, 5, 60, 30), "Tbl1")
            == App(ScenarioDoc.(currentPage := 2), Store([0, 2], map[0 := [Fig1], 2 := [Tbl1]]), Idle)
  {
    StripKeepsTrimmed("Tbl1");
    var first := Store([0], map[0 := [Fig1]]);
    var onThird := TurnPage(TurnPage(App(ScenarioDoc, first, Idle), true), true);
    assert onThird == App(ScenarioDoc.(currentPage := 2), first, Idle);
    assert Coords(Box(5, 5, 60, 30)) == [5, 5, 60, 30];
    assert Add(first, 2, Tbl1) == Store([0, 2], map[0 := [Fig1], 2 := [Tbl1]]) by {
      assert Get(first, 2) + [Tbl1] == [Tbl1];
      assert first.order + [2] == [0, 2];
    }
  }

  const TwoPages: Store := Store([0, 2], map[0 := [Fig1], 2 := [Tbl1]])

  lemma ScenarioCount()
    ensures Total(TwoPages) == 2 && Get(TwoPages, 1) == []
  {
    assert TwoPages.order[1..] == [2];
  }

  /** Loading a file this tool saved from a consistent store gives that
      store back, and no error shows when every box on the current page has
      four coordinates. */
  lemma LoadSavedLabels(app: App, path: string, s: Store)
    requires path != "" && Valid(s) && Drawable(Get(s, app.doc.currentPage))
    ensures LoadLabels(app, path, Some(Save(s))) == (app.(store := s), false)
  {
    assert Load(Save(s)) == Loaded(s, None);
  }

  /** Loading the saved pages onto page 0 of the reopened document: every
      box has four coordinates, so the redraw succeeds and no error shows. */
  lemma ScenarioLoadBack()
    ensures LoadLabels(App(ScenarioDoc, Empty, Idle), "labels.json", Some(Save(TwoPages)))
            == (App(ScenarioDoc, TwoPages, Idle), false)
  {
    assert Valid(TwoPages);
    assert Get(TwoPages, 0) == [Fig1] && Drawable([Fig1]);
    LoadSavedLabels(App(ScenarioDoc, Empty, Idle), "labels.json", TwoPages);
  }

  lemma ScenarioSave()
    ensures SaveLabels(App(ScenarioDoc.(currentPage := 2), TwoPages, Idle), "labels.json", true)
            == Written(Save(TwoPages))
  {
  }

  lemma ScenarioReopen()
    ensures OpenPdf(App(ScenarioDoc.(currentPage := 2), TwoPages, Idle), "doc.pdf", Some(3))
            == App(ScenarioDoc, Empty, Idle)
  {
  }

  /** Open a 3-page document, label page 0 "Fig1" and page 2 "Tbl1", save,
      reopen (which clears every label) and load the saved file: the count was
      2, page 1 had no labels, and the loaded pages hold the same labels. */
  lemma SaveReopenLoadScenario()
    ensures var ready := OpenPdf(Start, "doc.pdf", Some(3));
            var first := OnRectangleDrawn(ready, Box(10, 10, 50, 40), "Fig1");
            var third := OnRectangleDrawn(TurnPage(TurnPage(first, true), true), Box(5, 5, 60, 30), "Tbl1");
            var reopened := OpenPdf(third, "doc.pdf", Some(3));
            var loaded := LoadLabels(reopened, "labels.json", Some(Save(third.store)));
            && Total(third.store) == 2
            && Get(third.store, 1) == []
            && SaveLabels(third, "labels.json", true) == Written(Save(third.store))
            && reopened.store == Empty
            && !loaded.1
            && Get(loaded.0.store, 0) == [Fig1]
            && Get(loaded.0.store, 2) == [Tbl1]
  {
    ScenarioFirstLabel();
    ScenarioThirdPageLabel();
    ScenarioCount();
    ScenarioSave();
    ScenarioReopen();
    ScenarioLoadBack();
  }
}
