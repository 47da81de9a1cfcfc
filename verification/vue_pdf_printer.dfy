/** `VuePdfPrinter`: renders a component once, writes a self-contained copy
    of it with the host's styles into a hidden iframe at construction, and
    later prints that iframe or shows its markup in a preview window. */
module VuePdfPrinter {
  import opened Wrappers
  import opened Text
  import opened Host
  import opened Styles
  import opened Markup
  import opened Dom
  import opened Surface

  const RenderFailed := "Failed to create HTMLElement from component."
  const FrameDocumentMissing := "Failed to access iframe document."
  const DocumentIsNull := "Document is null"
  const WindowIsNull := "Window is null"
  const IframeIsNull := "Iframe is null"
  const PreviewWindowIsNull := "Preview window is null"

  /** Forces exact colours in print and an A4 portrait page without margins. */
  const PrintStyles := "\n      @media print {\n        * {\n          -webkit-print-color-adjust: exact !important;\n        }\n"
    + "        @page {\n          margin: 0;\n          size: A4 portrait;\n        }\n      }\n    "

  // ---------------------------------------------------------------- head

  /** Whether the selector `link[type="text/css"]` matches a link: the `type`
      attribute must be present, and HTML compares its value with `text/css`
      ignoring ASCII case. */
  function Selected(l: Link): (r: bool)
    ensures l.typeAttr.None? ==> !r
    ensures l.typeAttr == Some(TextCss) ==> r
    ensures r ==> l.typeAttr.Some? && |l.typeAttr.value| == |TextCss|
  {
    l.typeAttr.Some? && EqualsIgnoringAsciiCase(l.typeAttr.value, TextCss)
  }

  function LinkTag(href: string): string
  {
    "<link type=\"text/css\" rel=\"stylesheet\" href=\"" + href + "\">"
  }

  lemma LinkTagNonEmpty()
    ensures forall h :: LinkTag(h) != ""
  {
    forall h ensures LinkTag(h) != "" {
      assert |LinkTag(h)| > |h|;
    }
  }

  /** The link tags of the head, one per selected link: nothing when the
      selector matches no link, and otherwise opening with the first
      matched link's tag. */
  function Links(ls: seq<Link>): (r: string)
    ensures r == "" <==> Select(Selected, ls) == []
    ensures Select(Selected, ls) != [] ==> LinkTag(Select(Selected, ls)[0].href) <= r
  {
    LinkTagNonEmpty();
    LinkMarkupShape(Selected, LinkTag, ls);
    LinkMarkup(Selected, LinkTag, ls)
  }

  /** Link tags follow document order. */
  lemma LinksCompose(a: seq<Link>, b: seq<Link>)
    ensures Links(a + b) == Links(a) + Links(b)
  {
    LinkMarkupAppend(Selected, LinkTag, a, b);
  }

  /** A link yields exactly one tag, carrying its href, when the selector
      matches it, and nothing otherwise. */
  lemma LinksOne(l: Link)
    ensures Links([l]) == if Selected(l) then LinkTag(l.href) else ""
  {
    LinkMarkupOne(Selected, LinkTag, l);
  }

  /** The text written for a root attribute: `getAttribute(name) || ''`. */
  function AttrText(a: Option<string>): (r: string)
    ensures a.Some? ==> r == a.value
    ensures a.None? ==> r == ""
  {
    if a.Some? && a.value != "" then a.value else ""
  }

  /** The variable parts of the written document. */
  function PageOf(host: Snapshot, settings: Settings, outer: string): Page
  {
    Page(AttrText(host.lang), AttrText(host.cls), settings.title, Links(host.links),
         StyleText(host.sheets), PrintStyles, outer)
  }

  /** The markup `write()` puts into the iframe: it opens with the doctype
      and a root tag carrying the host's `lang` and `class` verbatim (empty
      when absent), and it closes with a body holding exactly the rendered
      element. */
  function Document(host: Snapshot, settings: Settings, outer: string): (r: string)
    ensures DocType + HtmlOpen(AttrText(host.lang), AttrText(host.cls)) <= r
    ensures |Body(outer) + HtmlClose| <= |r|
    ensures r[|r| - |Body(outer) + HtmlClose|..] == Body(outer) + HtmlClose
  {
    var page := PageOf(host, settings, outer);
    assert page.outer == outer && page.lang == AttrText(host.lang) && page.cls == AttrText(host.cls);
    Serialize(page)
  }

  /** The configured title reaches the document: two settings with
      different titles give different documents. */
  lemma DistinctTitlesDistinctDocuments(host: Snapshot, s1: Settings, s2: Settings, outer: string)
    requires s1.title != s2.title
    ensures Document(host, s1, outer) != Document(host, s2, outer)
  {
    if Document(host, s1, outer) == Document(host, s2, outer) {
      SerializeDeterminesTitle(PageOf(host, s1, outer), PageOf(host, s2, outer));
    }
  }

  /** The rendered element reaches the document unchanged: two different
      elements give different documents. */
  lemma DistinctElementsDistinctDocuments(host: Snapshot, settings: Settings, o1: string, o2: string)
    requires o1 != o2
    ensures Document(host, settings, o1) != Document(host, settings, o2)
  {
    if Document(host, settings, o1) == Document(host, settings, o2) {
      SerializeDeterminesOuter(PageOf(host, settings, o1), PageOf(host, settings, o2));
    }
  }

  /** The collected style omits exactly the unreadable sheets and keeps the
      others' rules in sheet-then-rule order. */
  lemma StyleIsReadableRules(host: Snapshot, settings: Settings, outer: string)
    ensures PageOf(host, settings, outer).style == Concat(AllRules(host.sheets))
    ensures PageOf(host, settings, outer).style == StyleText(AccessibleSheets(host.sheets))
  {
    StyleTextOmitsOnlyInaccessible(host.sheets);
  }

  /** A host `<html lang="en" class="dark">` with no links or sheets, the
      element `<span>Hi</span>` and the title `Invoice`. */
  lemma InvoiceExample()
    ensures var d := Document(Snapshot(Some("en"), Some("dark"), [], []), Settings("Invoice"), "<span>Hi</span>");
      && d == Serialize(Page("en", "dark", "Invoice", "", "", PrintStyles, "<span>Hi</span>"))
      && DocType + HtmlOpen("en", "dark") <= d
      && d[|d| - |Body("<span>Hi</span>") + HtmlClose|..] == Body("<span>Hi</span>") + HtmlClose
  {
    assert Select(Selected, []) == [];
    assert Links([]) == "";
    assert SheetTexts([]) == [];
    assert StyleText([]) == "";
  }

  // ----------------------------------------------------------- lifecycle

  /** `createPrintWindow()`: the iframe is appended to the body and all
      three fields are set before the document is checked, so a throw leaves
      the iframe attached and the printer holding it, with the window the
      frame has and no document. */
  function CreatePrintWindow(w: World, p: Printer, access: FrameAccess): (r: Call)
    ensures r.world == AppendFrame(w)
    ensures r.printer.settings == p.settings && r.printer.el == p.el
    ensures r.printer.iframe == Some(w.nextId)
    ensures r.printer.window <==> access != FrameWithoutWindow
    ensures r.printer.document == (if access == FrameReady then Some(BlankDocument) else None)
    ensures r.result.Ok? <==> access == FrameReady
    ensures r.result.Err? ==> r.result.error == Thrown(FrameDocumentMissing)
  {
    var p1 := p.(iframe := Some(w.nextId),
                 window := access != FrameWithoutWindow,
                 document := if access == FrameReady then Some(BlankDocument) else None);
    if p1.document.None? then Call(AppendFrame(w), p1, Err(Thrown(FrameDocumentMissing)))
    else Call(AppendFrame(w), p1, Ok(()))
  }

  /** `write()`: the iframe's document is replaced by the assembled markup.
      The rendered element is asserted non-null by the source. */
  function Write(p: Printer, host: Snapshot): (r: Result<Printer, Error>)
    requires p.el.Some?
    ensures p.document.None? ==> r == Err(Thrown(DocumentIsNull))
    ensures p.document.Some? ==> r.Ok? && r.value.document == Some(FrameDocument(Document(host, p.settings, p.el.value)))
    ensures r.Ok? ==> r.value.(document := p.document) == p
  {
    if p.document.None? then Err(Thrown(DocumentIsNull))
    else Ok(p.(document := Some(FrameDocument(Document(host, p.settings, p.el.value)))))
  }

  /** The constructor. A null rendered element throws before the host is
      touched. Otherwise an iframe is attached, and the printer is
      built only if its document is readable, holding the assembled
      markup; a failed construction leaves the iframe attached. */
  function New(w: World, host: Snapshot, settings: Settings, rendered: Option<string>, access: FrameAccess): (r: Step<Printer>)
    ensures rendered.None? ==> r == Step(w, Err(Thrown(RenderFailed)))
    ensures rendered.Some? ==> r.world == AppendFrame(w)
    ensures rendered.Some? ==> (r.result.Ok? <==> access == FrameReady)
    ensures rendered.Some? && access != FrameReady ==> r.result == Err(Thrown(FrameDocumentMissing))
    ensures r.result.Ok? ==>
      r.result.value == Printer(settings, rendered, Some(w.nextId), true, Some(FrameDocument(Document(host, settings, rendered.value))))
  {
    if rendered.None? then Step(w, Err(Thrown(RenderFailed)))
    else
      var c := CreatePrintWindow(w, Unattached(settings, rendered.value), access);
      match c.result
      case Err(e) => Step(c.world, Err(e))
      case Ok(_) =>
        match Write(c.printer, host)
        case Err(e) => Step(c.world, Err(e))
        case Ok(p) => Step(c.world, Ok(p))
  }

  /** `print()`: throws when the window or the iframe is missing; otherwise
      registers the two print listeners and asks the iframe to print. */
  function Print(w: World, p: Printer): (r: Step<()>)
    ensures !p.window ==> r == Step(w, Err(Thrown(WindowIsNull)))
    ensures p.window && p.iframe.None? ==> r == Step(w, Err(Thrown(IframeIsNull)))
    ensures p.window && p.iframe.Some? ==> r == Step(RegisterPrintHandlers(w, p.iframe.value), Ok(()))
  {
    if !p.window then Step(w, Err(Thrown(WindowIsNull)))
    else if p.iframe.None? then Step(w, Err(Thrown(IframeIsNull)))
    else Step(RegisterPrintHandlers(w, p.iframe.value), Ok(()))
  }

  /** `preview()`: throws when the document is missing, or when no
      preview window is open and `window.open` gives none; otherwise the
      iframe document's markup is written into the window named
      `Print Preview`, after whatever an earlier preview left there. The
      body, the listeners and the printer are untouched. */
  function Preview(w: World, p: Printer, windowOpens: bool): (r: Step<()>)
    ensures p.document.None? ==> r == Step(w, Err(Thrown(DocumentIsNull)))
    ensures p.document.Some? && w.previewWindow.None? && !windowOpens ==> r == Step(w, Err(Thrown(PreviewWindowIsNull)))
    ensures p.document.Some? && (w.previewWindow.Some? || windowOpens) ==>
      && r.result.Ok?
      && r.world.previewWindow.Some?
      && w.previewWindow.GetOr("") <= r.world.previewWindow.value
      && r.world.previewWindow.value[|w.previewWindow.GetOr("")|..] == p.document.value.markup
      && r.world.(previewWindow := w.previewWindow) == w
  {
    if p.document.None? then Step(w, Err(Thrown(DocumentIsNull)))
    else
      match PreviewWrite(w, p.document.value.markup, windowOpens)
      case None => Step(w, Err(Thrown(PreviewWindowIsNull)))
      case Some(w1) => Step(w1, Ok(()))
  }

  /** Construct, print, and deliver one `afterprint` while the printer
      still holds the iframe it created: both steps succeed, and afterwards
      the body and the window's listeners are exactly what they were before
      construction. */
  lemma {:induction false} LifecycleRestoresHost(w: World, host: Snapshot, settings: Settings, outer: string)
    requires Valid(w)
    requires AfterPrintListeners(w.listeners) == []
    ensures New(w, host, settings, Some(outer), FrameReady).result.Ok?
    ensures var s := New(w, host, settings, Some(outer), FrameReady);
      var frame := s.result.value.iframe;
      var q := Print(s.world, s.result.value);
      && q.result.Ok?
      && DeliverAfterPrint(q.world, _ => frame).body == w.body
      && DeliverAfterPrint(q.world, _ => frame).listeners == w.listeners
  {
    var s := New(w, host, settings, Some(outer), FrameReady);
    var frame := s.result.value.iframe;
    PrintThenAfterPrint(s.world, w.nextId, _ => frame);
    WithoutSnoc(w.body, w.nextId, w.nextId);
    WithoutAbsent(w.body, w.nextId);
  }

  /** The second half of `RecreatedFrameStaysAttached`, for any printer
      holding the iframe appended to `w`. */
  lemma RecreateBeforeAfterPrint(w: World, p: Printer)
    requires Valid(w)
    requires AfterPrintListeners(w.listeners) == []
    requires p.window && p.iframe == Some(w.nextId)
    ensures var q := Print(AppendFrame(w), p);
      var c := CreatePrintWindow(q.world, p, FrameReady);
      var frame := c.printer.iframe;
      && c.result.Ok?
      && DeliverAfterPrint(c.world, _ => frame).body == w.body + [w.nextId]
      && DeliverAfterPrint(c.world, _ => frame).listeners == w.listeners
  {
    var q := Print(AppendFrame(w), p);
    assert q.world == RegisterPrintHandlers(AppendFrame(w), w.nextId);
    var c := CreatePrintWindow(q.world, p, FrameReady);
    assert c.world == AppendFrame(q.world);
    var frame := c.printer.iframe;
    assert frame == Some(w.nextId + 2);
    SwapFrameBeforeAfterPrint(AppendFrame(w), w.nextId, _ => frame);
  }

  /** `createPrintWindow()` called again between `print()` and
      `afterprint`: the after-print closure reads the printer's new iframe,
      removes that one, and the first iframe stays attached for good. */
  lemma {:induction false} RecreatedFrameStaysAttached(w: World, host: Snapshot, settings: Settings, outer: string)
    requires Valid(w)
    requires AfterPrintListeners(w.listeners) == []
    ensures New(w, host, settings, Some(outer), FrameReady).result.Ok?
    ensures var s := New(w, host, settings, Some(outer), FrameReady);
      var q := Print(s.world, s.result.value);
      CreatePrintWindow(q.world, s.result.value, FrameReady).result.Ok?
    ensures var s := New(w, host, settings, Some(outer), FrameReady);
      var q := Print(s.world, s.result.value);
      var c := CreatePrintWindow(q.world, s.result.value, FrameReady);
      var frame := c.printer.iframe;
      && DeliverAfterPrint(c.world, _ => frame).body == w.body + [w.nextId]
      && DeliverAfterPrint(c.world, _ => frame).listeners == w.listeners
  {
    var s := New(w, host, settings, Some(outer), FrameReady);
    assert s.world == AppendFrame(w);
    RecreateBeforeAfterPrint(w, s.result.value);
  }

  /** `createPrintWindow()` called again on a constructed printer when the
      new frame's document reads as null: the call throws, yet the printer
      already holds the new iframe and its window, and no document. So
      `print()` passes both guards and prints the new, empty iframe, while
      `preview()` throws "Document is null". */
  lemma FailedRecreatePrintsEmptyFrame(w: World, host: Snapshot, settings: Settings, outer: string, windowOpens: bool)
    ensures New(w, host, settings, Some(outer), FrameReady).result.Ok?
    ensures var s := New(w, host, settings, Some(outer), FrameReady);
      var c := CreatePrintWindow(s.world, s.result.value, FrameWithoutDocument);
      && c.result == Err(Thrown(FrameDocumentMissing))
      && c.world.body == w.body + [w.nextId, w.nextId + 1]
      && c.printer == s.result.value.(iframe := Some(w.nextId + 1), document := None)
      && Print(c.world, c.printer) == Step(RegisterPrintHandlers(c.world, w.nextId + 1), Ok(()))
      && Preview(c.world, c.printer, windowOpens) == Step(c.world, Err(Thrown(DocumentIsNull)))
  {
    var s := New(w, host, settings, Some(outer), FrameReady);
    assert s.world == AppendFrame(w);
    var p := s.result.value;
    assert p.iframe == Some(w.nextId) && p.window;
    var c := CreatePrintWindow(s.world, p, FrameWithoutDocument);
    assert c.world == AppendFrame(s.world);
    assert c.printer.window && c.printer.iframe == Some(w.nextId + 1);
  }

  /** Preview after construction writes the assembled markup into a new
      preview window. Previewing again while that window is open gets the
      same window back, with no popup needed, and appends a second copy;
      once the user has closed it, the next preview starts a fresh one. */
  lemma RepeatedPreviewAppends(w: World, host: Snapshot, settings: Settings, outer: string, secondOpens: bool)
    requires w.previewWindow.None?
    ensures var s := New(w, host, settings, Some(outer), FrameReady);
      var d := Document(host, settings, outer);
      var v1 := Preview(s.world, s.result.value, true);
      var v2 := Preview(v1.world, s.result.value, secondOpens);
      var v3 := Preview(ClosePreviewWindow(v2.world), s.result.value, true);
      && v1.result.Ok? && v1.world.previewWindow == Some(d)
      && v2.result.Ok? && v2.world.previewWindow == Some(d + d)
      && v3.result.Ok? && v3.world.previewWindow == Some(d)
      && v3.world.body == s.world.body && v3.world.listeners == s.world.listeners
  {
  }
}
