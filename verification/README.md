# vue-pdf-printer, modelled in Dafny

vue-pdf-printer prints a Vue component. At construction it does four things.
It renders the component off-screen. It copies the host page's style links and
readable CSS rules. It assembles a standalone HTML document. It writes that
document into a hidden iframe attached to the host body. Later, `print()`
registers `beforeprint`/`afterprint` listeners on the host window and prints
the iframe; the `afterprint` listener removes the printer's current iframe
and both listeners. `preview()` writes the iframe document's markup into the
window named `Print Preview`, opening it if it is not already open. The
repository holds this logic twice: `VuePdfPrinter` in `src/index.ts`, and the
older `PDFPrinter` in `src/pdf.ts`.

The model keeps the same split:

- `Host` is the read-only host snapshot. It holds the root element's optional
  `lang` and `class`, the `<link>` elements, and the style sheets. Each sheet
  is either `Accessible(rules)` or `Inaccessible`.
- `Styles` gives reference definitions of link selection and style collection.
  Lemmas cover order, composition, and skipping unreadable sheets.
- `Markup` is the one document template both printers use. Lemmas show the
  document determines its title, its body, and each root attribute.
- `Dom` holds the host window's mutable side. That is the body's children, the
  window listeners in registration order, the recorded print requests, and
  the open preview window with everything written into it. It also models
  dispatch of an `afterprint` event. The after-print closure reads its
  printer's `iframe` field when it runs, so delivery takes a `FrameLookup`:
  the value of that field at event time for each closure pair.
- `Surface` holds the printer's fields and two result shapes. A `Step` is the
  world after an operation plus a value or a thrown error; effects on the host
  window made before a throw persist in its world. A `Call` is used for
  `createPrintWindow` and `init`, which run on an existing printer object. It
  also carries the printer's fields after the call, so field writes made
  before a throw persist too.
- `VuePdfPrinter` and `PdfPrinter` model the two classes: head, body, document,
  constructor, `createPrintWindow`, `write`, `print` and `preview`.
  `PdfPrinter` also models `init`, and its link and style loops are methods
  with loop invariants.
- `Comparison` proves how the two classes differ and where they agree.

A failed construction is not undone: `src/index.ts:65-72` appends the iframe
before checking its document, and nothing detaches it when the check throws.
`VuePdfPrinter.New` and `PdfPrinter.Init` state that the iframe stays
attached.

Two details come from how the browser evaluates the source:

- The selector `link[type="text/css"]` in `src/index.ts` matches the `type`
  attribute ignoring ASCII case, because HTML treats that attribute's value
  case-insensitively in selectors. `src/pdf.ts` compares the `type` property
  with `===`, so its filter is strictly narrower (`Comparison.SelectionsAgreeIff`).
- `iframe.contentWindow!.document` in `src/pdf.ts` is not a runtime check. A
  null `contentWindow` makes the property read throw a `TypeError`, which is
  modelled as `NullDereference`.

## Model

| member | source | states |
|---|---|---|
| Styles.StyleText | src/index.ts:90-100 | the style text is exactly every readable rule's text, sheet by sheet and rule by rule, with nothing dropped or reordered |
| Styles.StyleTextAppend | src/index.ts:90-100 | collecting over `a + b` gives a's text followed by b's text (document order is kept) |
| Styles.InaccessibleContributesNothing | src/index.ts:92-98 | a sheet whose rules throw adds the empty fragment and collection continues past it unchanged |
| Styles.StyleTextOmitsOnlyInaccessible | src/index.ts:90-100 | collecting over all sheets equals collecting over the readable ones alone |
| Markup.Head | src/index.ts:114 | the head opens with the title element holding the title verbatim and closes with the print-style element holding the print style verbatim |
| Markup.Body | src/index.ts:120-122 | between `<body>` and `</body>` lies exactly the element's outer HTML |
| Markup.Serialize | src/index.ts:136 | the document opens with the doctype and the `<html lang class>` tag carrying the page attributes verbatim, and ends with `<body>`+outerHTML+`</body></html>` |
| Markup.SerializeDeterminesTitle | src/index.ts:114 | pages differing only in title give different documents |
| Markup.SerializeDeterminesOuter | src/index.ts:120-122 | pages differing only in the element's outer HTML give different documents |
| Markup.SerializeDeterminesLang | src/index.ts:136 | pages differing only in `lang` give different documents |
| Markup.SerializeDeterminesClass | src/index.ts:136 | pages differing only in `class` give different documents |
| Dom.AppendFrame | src/index.ts:65 | the new iframe gets a fresh id and becomes the body's last child; listeners are untouched |
| Dom.RemoveChild | src/index.ts:151 | removal succeeds exactly when the node is a child (otherwise the DOM's NotFoundError), and then only that node leaves the body |
| Dom.AddListener | src/index.ts:156-157 | the listener is registered afterwards, appended when new |
| Dom.RemoveListener | src/index.ts:152-153 | the listener is gone and every other listener's registration is unchanged |
| Dom.RegisterPrintHandlers | src/index.ts:149-160 | exactly two fresh listeners are appended (before-print, then after-print), the body is unchanged, and one print request for the iframe is recorded |
| Dom.RunAfterPrint | src/index.ts:150-154 | when the printer's current iframe is attached, it alone leaves the body and exactly the closure pair leaves the window; a null field or detached iframe throws at the first line and changes nothing |
| Dom.Dispatch | src/index.ts:150-157 | dispatching to the listeners collected at event time only takes nodes out of the body and listeners off the window, and leaves the counter, print requests and preview window as they were |
| Dom.DeliverAfterPrint | src/index.ts:150-157 | one `afterprint` event only removes nodes and listeners; its effect on a single print is stated by `Dom.PrintThenAfterPrint` and `Dom.MissingFrameLeavesListeners` |
| Dom.DeliverToLastPair | src/index.ts:150-157 | with only the newest pair pending, delivery removes the printer's iframe and the pair when that iframe is attached, and changes nothing otherwise |
| Dom.PrintThenAfterPrint | src/index.ts:143-161 | with no print pending and the printer still holding an attached iframe, print followed by one afterprint removes that iframe and restores the prior listener list exactly |
| Dom.MissingFrameLeavesListeners | src/index.ts:150-154 | if the printer's iframe is null or already gone, the after-print closure throws in `removeChild` and both new listeners stay registered |
| Dom.SwapFrameBeforeAfterPrint | src/index.ts:150-154 | with a new iframe appended after `print()` and the printer's field moved to it, delivery removes the new iframe and the pair |
| Dom.PreviewWrite | src/index.ts:170-175 | an open `Print Preview` window is reused and the markup appended to what it holds; with none open, a new window holds just the markup, or the call yields null when no window is granted; nothing else changes |
| VuePdfPrinter.Selected | src/index.ts:86 | a link without a `type` attribute never matches, `text/css` always matches, and any match has the length of `text/css` |
| VuePdfPrinter.Links | src/index.ts:86-88 | the link markup is empty exactly when the selector matches nothing, and otherwise opens with the first matched link's tag |
| VuePdfPrinter.LinksCompose | src/index.ts:86-88 | link tags follow document order: the links of `a + b` give a's tags then b's |
| VuePdfPrinter.LinksOne | src/index.ts:86-88 | a link yields one `<link type="text/css" rel="stylesheet" href="H">` when the selector matches it and nothing otherwise |
| VuePdfPrinter.AttrText | src/index.ts:131-133 | a present root attribute is written verbatim, an absent one as the empty string |
| VuePdfPrinter.Document | src/index.ts:127-137 | the written markup starts with the doctype and the host's lang/class (empty when absent) and ends with the body holding exactly the rendered element |
| VuePdfPrinter.DistinctTitlesDistinctDocuments | src/index.ts:114 | the configured title reaches the document: different titles give different documents |
| VuePdfPrinter.DistinctElementsDistinctDocuments | src/index.ts:120-122 | different rendered elements give different documents |
| VuePdfPrinter.StyleIsReadableRules | src/index.ts:90-100 | the head's style is the readable rules in order, equal to collecting over readable sheets only |
| VuePdfPrinter.InvoiceExample | src/index.ts:127-137 | for `<html lang="en" class="dark">`, `<span>Hi</span>` and title `Invoice`, the root tag, title and body are as expected |
| VuePdfPrinter.CreatePrintWindow | src/index.ts:54-73 | the iframe is always appended and the printer always takes it, holds the frame's window when there is one and a blank document only when it is readable; the call throws "Failed to access iframe document." exactly when there is none, keeping those field writes |
| VuePdfPrinter.Write | src/index.ts:127-138 | throws "Document is null" without a document; otherwise replaces the iframe document with the assembled markup and changes no other field |
| VuePdfPrinter.New | src/index.ts:25-36 | a null element throws before the host is touched; otherwise one iframe is attached, and construction succeeds exactly when the frame document is readable, holding the assembled document |
| VuePdfPrinter.Print | src/index.ts:143-161 | throws "Window is null" / "Iframe is null" with the world unchanged; otherwise registers the two print listeners |
| VuePdfPrinter.Preview | src/index.ts:166-176 | throws "Document is null" without a document, and "Preview window is null" only when no preview window is open and none is granted; otherwise the iframe markup is appended to what the preview window holds, and nothing else changes |
| VuePdfPrinter.LifecycleRestoresHost | src/index.ts:143-161 | construct, print, then one afterprint with the printer still holding its iframe: all succeed and the body and listeners are back to their state before construction |
| VuePdfPrinter.RecreateBeforeAfterPrint | src/index.ts:150-154 | for any printer holding a freshly appended iframe: print, a second `createPrintWindow()`, then afterprint removes only the second iframe and restores the listeners |
| VuePdfPrinter.RecreatedFrameStaysAttached | src/index.ts:150-154 | a second `createPrintWindow()` between print and afterprint makes the closure remove the new iframe, so the first stays attached |
| VuePdfPrinter.FailedRecreatePrintsEmptyFrame | src/index.ts:67-72 | a second `createPrintWindow()` whose document is unreadable throws, yet the printer holds the new iframe and no document: `print()` then prints the new empty iframe and `preview()` throws "Document is null" |
| VuePdfPrinter.RepeatedPreviewAppends | src/index.ts:166-176 | the first preview's window holds the assembled markup; a second preview reuses that window without needing a popup and holds two copies; after the user closes it, the next preview starts over with one copy |
| PdfPrinter.Selected | src/pdf.ts:76 | a link is kept exactly when its `type` attribute is present and equal to `text/css` |
| PdfPrinter.Links | src/pdf.ts:75-78 | the link markup is empty exactly when no link is kept, and otherwise opens with the first kept link's tag |
| PdfPrinter.CollectLinks | src/pdf.ts:75-78 | the accumulating loop produces exactly the reference link markup: one spaced tag per link whose `type` is `text/css`, in document order |
| PdfPrinter.AppendRules | src/pdf.ts:87-88 | the loop appends exactly the sheet's rule texts, in order, to the accumulated style |
| PdfPrinter.CollectStyle | src/pdf.ts:80-95 | the nested loop produces exactly the reference style text; an unreadable sheet adds nothing and the loop continues |
| PdfPrinter.GetHead | src/pdf.ts:71-110 | the head holds the literal title `title`, the collected links and style, and the print style |
| PdfPrinter.Document | src/pdf.ts:54-65 | the written markup starts with the doctype and the root tag and ends with the body holding exactly the rendered element |
| PdfPrinter.TitleIgnoresSettings | src/pdf.ts:109 | any two settings give the same document, titled `title` |
| PdfPrinter.AbsentAttributesReadNull | src/pdf.ts:58-63 | a host root without lang and class yields `<html lang="null" class="null">` |
| PdfPrinter.CreatePrintWindow | src/pdf.ts:38-52 | the iframe is always appended and the printer always takes it; only a missing `contentWindow` throws (a TypeError), after `iframe` and a null `window` are stored and before the old document is replaced; otherwise the frame's blank or null document is stored without a check |
| PdfPrinter.Write | src/pdf.ts:54-65 | throws "document is null" without a document; otherwise writes the assembled markup and changes no other field |
| PdfPrinter.Init | src/pdf.ts:32-36 | one iframe is attached and taken by the printer in every case; succeeds exactly when the frame document is readable, then holding the assembled document; otherwise throws TypeError (old document kept, null window) or "document is null" (null document) |
| PdfPrinter.New | src/pdf.ts:13-20 | a null element throws "el is null" and `init` never runs (world unchanged); otherwise behaves as `init`, holding the assembled document on success |
| PdfPrinter.Print | src/pdf.ts:116-137 | same guards (with lower-case messages) and the same two-listener registration |
| PdfPrinter.Preview | src/pdf.ts:139-149 | the same guards, with lower-case messages, and the same append into the `Print Preview` window |
| PdfPrinter.LifecycleRestoresHost | src/pdf.ts:116-137 | construct, print, then one afterprint with the printer still holding its iframe: the body and listeners are back to their state before construction |
| PdfPrinter.FailedRecreateKeepsOldDocument | src/pdf.ts:49-51 | a second `createPrintWindow()` without a `contentWindow` throws after storing the new iframe and a null window: `print()` then throws "window is null" while `preview()` still shows the document written at construction |
| PdfPrinter.ClearedFieldKeepsFrame | src/pdf.ts:126-130 | with the public `iframe` field set to null before afterprint, the closure throws, and both the iframe and the two listeners stay |
| Comparison.PdfSelectionIsStricter | src/pdf.ts:75-78 | every link the older filter keeps is also matched by the newer selector |
| Comparison.SelectionCounts | src/pdf.ts:75-78 | the older printer keeps no more links, and strictly fewer when some type is `text/css` in another letter case |
| Comparison.SelectionsAgreeIff | src/pdf.ts:75-78 | both keep the same links in the same order if and only if no link's type is a case variant of `text/css` |
| Comparison.LinkTagSpacing | src/pdf.ts:77 | the older tag is the newer one with a space inserted before the closing `>` |
| Comparison.LinksLengthDiffer | src/pdf.ts:75-78 | when selections agree, the older link markup is longer by exactly one character per kept link |
| Comparison.LinksAgreeIff | src/pdf.ts:75-78 | the two link markups are equal if and only if no link is kept at all |
| Comparison.PagesCompared | src/pdf.ts:58-109 | style and body always agree; title agrees iff the configured title is `title`; each attribute agrees iff the host sets it; print styles never agree |
| Comparison.ConstructionCompared | src/pdf.ts:13-52 | both constructors change the host identically and succeed in the same cases |
| Comparison.PrintCompared | src/pdf.ts:116-137 | both `print()` methods have the same effect and fail in the same cases |

## Left out

- `getEl` and Vue rendering (`h`, `render`, `vnode.el`) come from a foreign library. The rendered element is an `Option<string>` holding its outer HTML.
- The iframe's style assignments and id are not modelled. They do not affect the document or the lifecycle.
- `focus()` and the native print dialog are left out. `window.print()` is recorded as a print request for the iframe.
- `window.open` for a new preview window is a boolean parameter saying whether the browser granted one. `document.open/write/close` replace the frame document's markup.
- The user closing the preview window is modelled by `Dom.ClosePreviewWindow`. A `Print Preview` window opened by other code on the page is not modelled.
- Browser parsing and re-serialisation are not modelled. The frame document is the markup written into it, and preview writes that markup. The real `documentElement.outerHTML` is a re-serialisation without the doctype.
- CSS and HTML are never parsed or escaped. Rule texts, hrefs and outer HTML are opaque strings, spliced in verbatim as the template literals do.
- `console.warn` is not modelled. It appears only as "this sheet contributes the empty fragment".
- The before-print closure is a no-op, and delivering `beforeprint` is not modelled.
- An error thrown inside an event listener is reported by the browser and then swallowed. The model drops the report and keeps the state the listener had reached.
- VuePdfPrinter.Write: requires a rendered element. The source asserts one with `this._el!`, and only the constructor calls `write`, after its null check.
- PdfPrinter.Write: requires a rendered element, which the source asserts with `this.el!`. The field is public, so code that sets it to null and then calls `write()` gets a TypeError after `document.open()` has emptied the frame (`src/pdf.ts:62-63`). The model has no such path.
- PdfPrinter.Init: requires a rendered element for the same reason, because it calls `write()`.
- The listeners are registered on the host window (`src/index.ts:156-157`, `src/pdf.ts:132-133`), but `print()` calls `print()` on the iframe's window (`src/index.ts:160`, `src/pdf.ts:136`). Nothing shows that this delivers `afterprint` to the host window. The model only states what delivery does when it happens. Without it, the iframe and both listeners simply stay, a state in which `DeliverAfterPrint` is never applied.
- Dom.AppendFrame: `document.body.appendChild` throws a TypeError when the host document has no body (`src/index.ts:65`, `src/pdf.ts:47`). The model always has a body, so this error path is missing.
- VuePdfPrinter.Preview: the markup written is the frame document's markup as the model holds it. The real `documentElement.outerHTML` is the browser's re-serialisation, without the doctype.
- PdfPrinter.Preview: the same simplification of `documentElement.outerHTML` as in `VuePdfPrinter.Preview`.
- VuePdfPrinter.RepeatedPreviewAppends: "holds the assembled markup" is up to that same re-serialisation. The window reuse and the appending writes are modelled as the browser does them: the URL is empty and the document is never closed.
- Dom.PrintThenAfterPrint and both LifecycleRestoresHost lemmas assume no other print is pending. With pending prints, one `afterprint` also runs the other printers' closures; `Dispatch` models that, but no lemma summarises it.

## Findings

| source | as written | input that shows it | evidently intended | confidence | as-written member | corrected member |
|---|---|---|---|---|---|---|
| src/pdf.ts:58-63 | `getAttribute` results are spliced in unguarded, so an absent attribute prints as the text `null` | a host `<html>` with no `lang` or `class` gives `<html lang="null" class="null">` | the empty string for an absent attribute, as `src/index.ts:132-133` does | medium, not executed | PdfPrinter.AbsentAttributesReadNull | VuePdfPrinter.AttrText |
| src/pdf.ts:109 | the title is the literal `title`; `settings.title` is never read | settings `{ title: "Invoice" }` gives `<title>title</title>` | the configured title, as `src/index.ts:114` writes it | medium, not executed | PdfPrinter.TitleIgnoresSettings | VuePdfPrinter.DistinctTitlesDistinctDocuments |
