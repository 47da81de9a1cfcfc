/** `PDFPrinter`, the older printer: the same construction, print and
    preview lifecycle, with the head built by accumulating loops, a fixed
    title, a stricter link filter, and root attributes written without a
    fallback. */
module PdfPrinter {
  import opened Wrappers
  import opened Text
  import opened Host
  import opened Styles
  import opened Markup
  import opened Dom
  import opened Surface

  const ElIsNull := "el is null"
  const DocumentIsNull := "document is null"
  const WindowIsNull := "window is null"
  const IframeIsNull := "iframe is null"
  const PreviewWindowIsNull := "previewWindow is null"

  /** The title written into every document, whatever the settings say. */
  const FixedTitle := "title"

  /** Forces exact colours in print and an A4 portrait page without margins
      (indented differently from the newer printer's copy). */
  const PrintStyles := "\n        @media print {\n          * {\n            -webkit-print-color-adjust: exact !important;\n          }\n"
    + "          @page {\n            margin: 0;\n            size: A4 portrait;\n          }\n        }\n    "

  // ---------------------------------------------------------------- head

  /** Every `<link>` is visited and kept when its `type` property is exactly
      `text/css`; a link without the attribute reads as the empty string
      and is never kept. */
  function Selected(l: Link): (r: bool)
    ensures r <==> l.typeAttr == Some(TextCss)
  {
    TypeProperty(l) == TextCss
  }

  /** The tag written per kept link, with a space before the closing `>`. */
  function LinkTag(href: string): string
  {
    "<link type=\"text/css\" rel=\"stylesheet\" href=\"" + href + "\" >"
  }

  lemma LinkTagNonEmpty()
    ensures forall h :: LinkTag(h) != ""
  {
    forall h ensures LinkTag(h) != "" {
      assert |LinkTag(h)| > |h|;
    }
  }

  /** The link tags of the head, one per kept link, in document order:
      nothing when no link is kept, and otherwise opening with the first
      kept link's tag. */
  function Links(ls: seq<Link>): (r: string)
    ensures r == "" <==> Select(Selected, ls) == []
    ensures Select(Selected, ls) != [] ==> LinkTag(Select(Selected, ls)[0].href) <= r
  {
    LinkTagNonEmpty();
    LinkMarkupShape(Selected, LinkTag, ls);
    LinkMarkup(Selected, LinkTag, ls)
  }

  /** The `forEach` over the links, appending one tag per kept link. */
  method CollectLinks(ls: seq<Link>) returns (links: string)
    ensures links == Links(ls)
  {
    links := "";
    var i := 0;
    while i < |ls|
      invariant 0 <= i <= |ls|
      invariant links == Links(ls[..i])
    {
      var link := ls[i];
      assert ls[..i + 1] == ls[..i] + [link];
      LinkMarkupSnoc(Selected, LinkTag, ls[..i], link);
      if TypeProperty(link) == TextCss {
        links := links + LinkTag(link.href);
      }
      i := i + 1;
    }
    assert ls[..|ls|] == ls;
  }

  /** The inner `for … of` over one readable sheet's rules, appending each
      rule's text to the accumulated style. */
  method AppendRules(style: string, rules: seq<string>) returns (r: string)
    ensures r == style + Concat(rules)
  {
    r := style;
    var j := 0;
    while j < |rules|
      invariant 0 <= j <= |rules|
      invariant r == style + Concat(rules[..j])
    {
      ConcatStep(rules, j);
      r := r + rules[j];
      j := j + 1;
    }
    assert rules[..|rules|] == rules;
  }

  /** The loop over `document.styleSheets`: each readable sheet's rule texts
      are appended in order; a sheet whose rules cannot be read adds nothing
      (the source logs a warning) and the loop goes on. */
  method CollectStyle(sheets: seq<Sheet>) returns (style: string)
    ensures style == StyleText(sheets)
  {
    style := "";
    if |sheets| > 0 {
      var i := 0;
      while i < |sheets|
        invariant 0 <= i <= |sheets|
        invariant style == StyleText(sheets[..i])
      {
        var sheet := sheets[i];
        assert sheets[..i + 1] == sheets[..i] + [sheet];
        StyleTextSnoc(sheets[..i], sheet);
        match sheet {
          case Inaccessible =>
          case Accessible(rules) =>
            style := AppendRules(style, rules);
        }
        i := i + 1;
      }
      assert sheets[..|sheets|] == sheets;
    }
  }

  /** `getHead()`: the fixed title, the collected link tags and style, and
      the print style. */
  method GetHead(host: Snapshot) returns (head: string)
    ensures head == Head(FixedTitle, Links(host.links), StyleText(host.sheets), PrintStyles)
  {
    var links := CollectLinks(host.links);
    var style := CollectStyle(host.sheets);
    head := "<head><title>" + FixedTitle + "</title>" + links + "<style type=\"text/css\">" + style
      + "</style><style>" + PrintStyles + "</style></head>";
  }

  /** The text written for a root attribute: `getAttribute(name)` spliced
      into the template, so an absent attribute reads `null`. */
  function AttrText(a: Option<string>): (r: string)
    ensures a.Some? ==> r == a.value
    ensures a.None? ==> r == "null"
  {
    match a
    case Some(v) => v
    case None => "null"
  }

  /** The variable parts of the written document; the settings are not
      consulted. */
  function PageOf(host: Snapshot, settings: Settings, outer: string): Page
  {
    Page(AttrText(host.lang), AttrText(host.cls), FixedTitle, Links(host.links),
         StyleText(host.sheets), PrintStyles, outer)
  }

  /** The markup `write()` puts into the iframe. */
  function Document(host: Snapshot, settings: Settings, outer: string): (r: string)
    ensures DocType + HtmlOpen(AttrText(host.lang), AttrText(host.cls)) <= r
    ensures |Body(outer) + HtmlClose| <= |r|
    ensures r[|r| - |Body(outer) + HtmlClose|..] == Body(outer) + HtmlClose
  {
    var page := PageOf(host, settings, outer);
    assert page.outer == outer && page.lang == AttrText(host.lang) && page.cls == AttrText(host.cls);
    Serialize(page)
  }

  /** The configured title never reaches the document: any two settings
      give the same markup, titled `title`. */
  lemma TitleIgnoresSettings(host: Snapshot, s1: Settings, s2: Settings, outer: string)
    ensures Document(host, s1, outer) == Document(host, s2, outer)
    ensures PageOf(host, s1, outer).title == FixedTitle
  {
  }

  /** A host root element without `lang` and `class` yields a root tag
      reading `lang="null" class="null"`. */
  lemma AbsentAttributesReadNull(host: Snapshot, settings: Settings, outer: string)
    requires host.lang.None? && host.cls.None?
    ensures DocType + HtmlOpen("null", "null") <= Document(host, settings, outer)
  {
  }

  // ----------------------------------------------------------- lifecycle

  /** `createPrintWindow()`: the iframe is appended and the fields are set
      with no check on the document. A missing `contentWindow` makes the
      read of its `document` throw a `TypeError`, after the append and after
      `iframe` and `window` are set, so the previous document stays. */
  function CreatePrintWindow(w: World, p: Printer, access: FrameAccess): (r: Call)
    ensures r.world == AppendFrame(w)
    ensures r.printer.settings == p.settings && r.printer.el == p.el
    ensures r.printer.iframe == Some(w.nextId)
    ensures r.printer.window <==> access != FrameWithoutWindow
    ensures access == FrameWithoutWindow ==> r.printer.document == p.document
    ensures r.result.Err? <==> access == FrameWithoutWindow
    ensures r.result.Err? ==> r.result.error == NullDereference
    ensures r.result.Ok? ==>
      r.printer == p.(iframe := Some(w.nextId), window := true,
                      document := if access == FrameReady then Some(BlankDocument) else None)
  {
    var w1 := AppendFrame(w);
    var p1 := p.(iframe := Some(w.nextId), window := access != FrameWithoutWindow);
    if access == FrameWithoutWindow then Call(w1, p1, Err(NullDereference))
    else Call(w1, p1.(document := if access == FrameReady then Some(BlankDocument) else None), Ok(()))
  }

  /** `write()`: throws when the iframe's document is null; otherwise the
      document is replaced by the assembled markup. The rendered element is
      asserted non-null by the source. */
  function Write(p: Printer, host: Snapshot): (r: Result<Printer, Error>)
    requires p.el.Some?
    ensures p.document.None? ==> r == Err(Thrown(DocumentIsNull))
    ensures p.document.Some? ==> r.Ok? && r.value.document == Some(FrameDocument(Document(host, p.settings, p.el.value)))
    ensures r.Ok? ==> r.value.(document := p.document) == p
  {
    if p.document.None? then Err(Thrown(DocumentIsNull))
    else Ok(p.(document := Some(FrameDocument(Document(host, p.settings, p.el.value)))))
  }

  /** `init()`: create the iframe, then write into it. Whichever step
      throws, the printer keeps the new iframe; it holds the assembled
      document only on success. */
  function Init(w: World, p: Printer, host: Snapshot, access: FrameAccess): (r: Call)
    requires p.el.Some?
    ensures r.world == AppendFrame(w)
    ensures r.result.Ok? <==> access == FrameReady
    ensures access == FrameWithoutWindow ==> r.result == Err(NullDereference)
    ensures access == FrameWithoutDocument ==> r.result == Err(Thrown(DocumentIsNull))
    ensures r.result.Ok? ==>
      r.printer == p.(iframe := Some(w.nextId), window := true,
                      document := Some(FrameDocument(Document(host, p.settings, p.el.value))))
    ensures r.result.Err? ==>
      r.printer == p.(iframe := Some(w.nextId), window := access != FrameWithoutWindow,
                      document := if access == FrameWithoutWindow then p.document else None)
  {
    var c := CreatePrintWindow(w, p, access);
    match c.result
    case Err(_) => c
    case Ok(_) =>
      match Write(c.printer, host)
      case Err(e) => Call(c.world, c.printer, Err(e))
      case Ok(p1) => Call(c.world, p1, Ok(()))
  }

  /** The constructor: `el is null` before anything else when the component
      renders nothing, and `init()` otherwise. */
  function New(w: World, host: Snapshot, settings: Settings, rendered: Option<string>, access: FrameAccess): (r: Step<Printer>)
    ensures rendered.None? ==> r == Step(w, Err(Thrown(ElIsNull)))
    ensures rendered.Some? ==> r.world == AppendFrame(w)
    ensures rendered.Some? ==> (r.result.Ok? <==> access == FrameReady)
    ensures rendered.Some? && access == FrameWithoutWindow ==> r.result == Err(NullDereference)
    ensures rendered.Some? && access == FrameWithoutDocument ==> r.result == Err(Thrown(DocumentIsNull))
    ensures r.result.Ok? ==>
      r.result.value == Printer(settings, rendered, Some(w.nextId), true, Some(FrameDocument(Document(host, settings, rendered.value))))
  {
    if rendered.None? then Step(w, Err(Thrown(ElIsNull)))
    else
      var c := Init(w, Unattached(settings, rendered.value), host, access);
      match c.result
      case Err(e) => Step(c.world, Err(e))
      case Ok(_) => Step(c.world, Ok(c.printer))
  }

  /** `print()`: the same guards and listener registration as the newer
      printer, with its own messages. */
  function Print(w: World, p: Printer): (r: Step<()>)
    ensures !p.window ==> r == Step(w, Err(Thrown(WindowIsNull)))
    ensures p.window && p.iframe.None? ==> r == Step(w, Err(Thrown(IframeIsNull)))
    ensures p.window && p.iframe.Some? ==> r == Step(RegisterPrintHandlers(w, p.iframe.value), Ok(()))
  {
    if !p.window then Step(w, Err(Thrown(WindowIsNull)))
    else if p.iframe.None? then Step(w, Err(Thrown(IframeIsNull)))
    else Step(RegisterPrintHandlers(w, p.iframe.value), Ok(()))
  }

  /** `preview()`: the same guards and the same write into the window
      named `Print Preview` as the newer printer, with its own messages. */
  function Preview(w: World, p: Printer, windowOpens: bool): (r: Step<()>)
    ensures p.document.None? ==> r == Step(w, Err(Thrown(DocumentIsNull)))
    ensures p.document.Some? && w.previewWindow.None? && !windowOpens ==> r == Step(w, Err(Thrown(PreviewWindowIsNull)))
    ensures p.document.Some? && (w.previewWindow.Some? || windowOpens) ==>
      && r.result.Ok?
      && r.world.previewWindow.Some?
      && w.previewWindow.GetOr("") <= r.world.previewWindow.value
      && r.world.previewWindow.value[|w.previewWindow.GetOr("")|..] == p.document.value.markup
      && r.world.(previewWindow := w.previewWindow) == w
  {
    if p.document.None? then Step(w, Err(Thrown(DocumentIsNull)))
    else
      match PreviewWrite(w, p.document.value.markup, windowOpens)
      case None => Step(w, Err(Thrown(PreviewWindowIsNull)))
      case Some(w1) => Step(w1, Ok(()))
  }

  /** Construct, print, and deliver one `afterprint` while the printer
      still holds the iframe it created: both steps succeed, and afterwards
      the body and the window's listeners are exactly what they were before
      construction. */
  lemma {:induction false} LifecycleRestoresHost(w: World, host: Snapshot, settings: Settings, outer: string)
    requires Valid(w)
    requires AfterPrintListeners(w.listeners) == []
    ensures New(w, host, settings, Some(outer), FrameReady).result.Ok?
    ensures var s := New(w, host, settings, Some(outer), FrameReady);
      var frame := s.result.value.iframe;
      var q := Print(s.world, s.result.value);
      && q.result.Ok?
      && DeliverAfterPrint(q.world, _ => frame).body == w.body
      && DeliverAfterPrint(q.world, _ => frame).listeners == w.listeners
  {
    var s := New(w, host, settings, Some(outer), FrameReady);
    var frame := s.result.value.iframe;
    PrintThenAfterPrint(s.world, w.nextId, _ => frame);
    WithoutSnoc(w.body, w.nextId, w.nextId);
    WithoutAbsent(w.body, w.nextId);
  }

  /** The `iframe` field is public: a caller that sets it to null between
      `print()` and `afterprint` makes the after-print closure throw in
      `removeChild(null)`, so the iframe stays attached and both listeners
      stay registered. */
  lemma {:induction false} ClearedFieldKeepsFrame(w: World, host: Snapshot, settings: Settings, outer: string)
    requires Valid(w)
    requires AfterPrintListeners(w.listeners) == []
    ensures New(w, host, settings, Some(outer), FrameReady).result.Ok?
    ensures var s := New(w, host, settings, Some(outer), FrameReady);
      var q := Print(s.world, s.result.value);
      && q.result.Ok?
      && DeliverAfterPrint(q.world, _ => None).body == w.body + [w.nextId]
      && DeliverAfterPrint(q.world, _ => None).listeners
         == w.listeners + [Listener(BeforePrint, w.nextId + 1), Listener(AfterPrint, w.nextId + 1)]
  {
    var s := New(w, host, settings, Some(outer), FrameReady);
    assert s.world == AppendFrame(w);
    assert s.result.value.window && s.result.value.iframe == Some(w.nextId);
    var q := Print(s.world, s.result.value);
    assert q.world == RegisterPrintHandlers(s.world, w.nextId);
    var none: FrameLookup := _ => None;
    MissingFrameLeavesListeners(s.world, w.nextId, none);
  }

  /** `createPrintWindow()` called again on a constructed printer when the
      new iframe has no `contentWindow`: the read of its `document` throws,
      after the printer has taken the new iframe and a null window but
      before the old document is replaced. So `print()` now throws "window
      is null", while `preview()` still shows the document written at
      construction. */
  lemma FailedRecreateKeepsOldDocument(w: World, host: Snapshot, settings: Settings, outer: string)
    requires w.previewWindow.None?
    ensures New(w, host, settings, Some(outer), FrameReady).result.Ok?
    ensures var s := New(w, host, settings, Some(outer), FrameReady);
      var c := CreatePrintWindow(s.world, s.result.value, FrameWithoutWindow);
      && c.result == Err(NullDereference)
      && c.printer == s.result.value.(iframe := Some(w.nextId + 1), window := false)
      && Print(c.world, c.printer) == Step(c.world, Err(Thrown(WindowIsNull)))
      && Preview(c.world, c.printer, true) == Step(c.world.(previewWindow := Some(Document(host, settings, outer))), Ok(()))
  {
    var s := New(w, host, settings, Some(outer), FrameReady);
    var p := s.result.value;
    assert p.document == Some(FrameDocument(Document(host, settings, outer)));
    var c := CreatePrintWindow(s.world, p, FrameWithoutWindow);
    assert c.printer.document == p.document && !c.printer.window;
    assert c.world.previewWindow.None?;
  }
}
