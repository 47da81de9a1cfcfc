/** The part of the host page that the printers read. The host document is
    never written by the printers, so a snapshot taken at construction time
    is all that the document assembly depends on. */
module Host {
  import opened Wrappers

  /** A `<link>` element: its `type` content attribute (absent or present)
      and the value of its `href` property. */
  datatype Link = Link(typeAttr: Option<string>, href: string)

  /** An entry of `document.styleSheets`: either its `cssRules` can be read,
      giving the `cssText` of each rule in order, or reading them throws
      (a cross-origin sheet). */
  datatype Sheet = Accessible(rules: seq<string>) | Inaccessible

  /** The host state read while assembling the print document: the root
      element's `lang` and `class` attributes, every `<link>` element in
      document order, and every style sheet in document order. */
  datatype Snapshot = Snapshot(
    lang: Option<string>,
    cls: Option<string>,
    links: seq<Link>,
    sheets: seq<Sheet>)

  const TextCss := "text/css"

  /** The `type` IDL property of a link, which reflects the content
      attribute and reads as the empty string when it is absent. */
  function TypeProperty(l: Link): string
  {
    l.typeAttr.GetOr("")
  }
}
