/** The document side of the tool: which file is open, how many pages it has
    and which page is shown.  Rasterising and zoom are outside the model. */
module PdfDocument {
  import opened Results
  import opened Decimal

  /** `held` is whether a PyMuPDF document object is held; `filePath` is the
      path recorded by the last successful `open`. */
  datatype Document = Document(held: bool, filePath: Option<string>, totalPages: nat, currentPage: int)

  /** The state `PDFDocument()` starts in. */
  const Initial: Document := Document(false, None, 0, 0)

  /** `if self.document:` -- the document object has a length, its page
      count, so a document with no pages tests false. */
  predicate Truthy(d: Document) {
    d.held && d.totalPages > 0
  }

  /** The page shown is a page of the document, or page 0 when there is none. */
  predicate InRange(d: Document) {
    0 <= d.currentPage && (d.currentPage < d.totalPages || d.currentPage == 0)
  }

  /** `open`: `pageCount` is what the PDF library reports for `path`, or `None`
      when it raised; the failure is re-raised before any field changes. */
  function Open(path: string, pageCount: Option<nat>): (r: Result<Document, string>)
    ensures pageCount.None? <==> r.Failure?
    ensures r.Success? ==> && r.value.held
                           && r.value.filePath == Some(path)
                           && r.value.totalPages == pageCount.value
                           && r.value.currentPage == 0
                           && InRange(r.value)
  {
    match pageCount
    case None => Failure("Failed to open PDF")
    case Some(n) => Success(Document(true, Some(path), n, 0))
  }

  /** `close`: drops a (truthy) document; the path and page counters stay.
      Afterwards no page renders and the page line shows the placeholder. */
  function Close(d: Document): (r: Document)
    ensures !Truthy(r)
    ensures r.filePath == d.filePath && r.totalPages == d.totalPages && r.currentPage == d.currentPage
    ensures !Truthy(d) ==> r == d
    ensures forall p :: RenderPage(r, p).None?
    ensures PageInfo(r) == "No PDF loaded"
  {
    if Truthy(d) then d.(held := false) else d
  }

  /** The guard of `render_page`: the page index handed to the PDF library, or
      `None` when no document is held or the page is past the end. */
  function RenderPage(d: Document, pageNum: int): (r: Option<int>)
    ensures r.None? <==> !Truthy(d) || pageNum >= d.totalPages
    ensures r.Some? ==> r.value == pageNum
    ensures InRange(d) && pageNum == d.currentPage ==> (r == Some(pageNum) <==> Truthy(d))
  {
    if !Truthy(d) || pageNum >= d.totalPages then None else Some(pageNum)
  }

  /** `next_page`: moves forward when a later page exists and says whether it moved. */
  function NextPage(d: Document): (r: (Document, bool))
    ensures r.1 <==> d.currentPage < d.totalPages - 1
    ensures r.1 ==> r.0 == d.(currentPage := d.currentPage + 1)
    ensures !r.1 ==> r.0 == d
    ensures InRange(d) ==> InRange(r.0)
  {
    if d.currentPage < d.totalPages - 1 then (d.(currentPage := d.currentPage + 1), true) else (d, false)
  }

  /** `prev_page`: moves back when not on the first page and says whether it moved. */
  function PrevPage(d: Document): (r: (Document, bool))
    ensures r.1 <==> d.currentPage > 0
    ensures r.1 ==> r.0 == d.(currentPage := d.currentPage - 1)
    ensures !r.1 ==> r.0 == d
    ensures InRange(d) ==> InRange(r.0)
  {
    if d.currentPage > 0 then (d.(currentPage := d.currentPage - 1), true) else (d, false)
  }

  /** Any sequence of next (`true`) and previous (`false`) presses. */
  function Navigate(d: Document, presses: seq<bool>): Document
    decreases |presses|
  {
    if |presses| == 0 then d
    else Navigate(if presses[0] then NextPage(d).0 else PrevPage(d).0, presses[1..])
  }

  /** After opening an `n`-page document, no sequence of presses leaves the
      range `0 <= current_page <= max(n - 1, 0)`, and the page count never changes. */
  lemma {:induction false} NavigationStaysInRange(d: Document, presses: seq<bool>)
    requires InRange(d)
    ensures InRange(Navigate(d, presses))
    ensures Navigate(d, presses).totalPages == d.totalPages
    ensures Navigate(d, presses).filePath == d.filePath
    decreases |presses|
  {
    if |presses| > 0 {
      NavigationStaysInRange(if presses[0] then NextPage(d).0 else PrevPage(d).0, presses[1..]);
    }
  }

  /** `get_page_info`: one-based page number over the page count, or the
      placeholder when no document is held. */
  function PageInfo(d: Document): (r: string)
    ensures |r| > 6 && (r[0] == 'P' <==> Truthy(d))
    ensures !Truthy(d) ==> r == "No PDF loaded"
    ensures Truthy(d) && InRange(d) ==>
              && r[..6] == "Page: "
              && r[6..] == IntToString(d.currentPage + 1) + " / " + IntToString(d.totalPages)
              && AllDigits(IntToString(d.currentPage + 1))
  {
    if Truthy(d) then
      var body := IntToString(d.currentPage + 1) + " / " + IntToString(d.totalPages);
      assert ("Page: " + body)[..6] == "Page: ";
      "Page: " + body
    else "No PDF loaded"
  }

  /** In a digit string followed by " / ", the first non-digit is the space. */
  lemma SeparatorPosition(a: string, b: string)
    requires AllDigits(a)
    ensures (a + " / " + b)[|a|] == ' '
    ensures forall i :: 0 <= i < |a| ==> IsDigit((a + " / " + b)[i])
  {
  }

  lemma SplitAtSeparator(a1: string, b1: string, a2: string, b2: string)
    requires AllDigits(a1) && AllDigits(a2)
    requires a1 + " / " + b1 == a2 + " / " + b2
    ensures a1 == a2 && b1 == b2
  {
    var l := a1 + " / " + b1;
    SeparatorPosition(a1, b1);
    SeparatorPosition(a2, b2);
    assert |a1| == |a2|;
    assert a1 == l[..|a1|] && a2 == l[..|a2|];
    assert b1 == l[|a1| + 3..] && b2 == (a2 + " / " + b2)[|a2| + 3..];
  }

  /** The page line identifies the state: two documents that display the
      same text are both unloaded, or show the same page of the same count. */
  lemma PageInfoDistinguishes(d1: Document, d2: Document)
    requires InRange(d1) && InRange(d2)
    requires PageInfo(d1) == PageInfo(d2)
    ensures Truthy(d1) <==> Truthy(d2)
    ensures Truthy(d1) ==> d1.currentPage == d2.currentPage && d1.totalPages == d2.totalPages
  {
    if Truthy(d1) && Truthy(d2) {
      SplitAtSeparator(IntToString(d1.currentPage + 1), IntToString(d1.totalPages),
                       IntToString(d2.currentPage + 1), IntToString(d2.totalPages));
      IntToStringInjective(d1.currentPage + 1, d2.currentPage + 1);
      IntToStringInjective(d1.totalPages, d2.totalPages);
    }
  }
}
