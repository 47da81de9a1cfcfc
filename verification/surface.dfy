/** The state a printer object holds, and the shapes of operations that may
    throw after they have already changed the host window or the printer. */
module Surface {
  import opened Wrappers
  import opened Dom

  /** The read-only configuration given at construction. */
  datatype Settings = Settings(title: string)

  /** What the host gives back for a newly attached iframe: a window with a
      readable document, a window whose document reads as null, or no
      `contentWindow` at all. */
  datatype FrameAccess = FrameReady | FrameWithoutDocument | FrameWithoutWindow

  /** The iframe's document, represented by the markup written into it. */
  datatype FrameDocument = FrameDocument(markup: string)

  /** A fresh iframe holds an empty `about:blank` document. */
  const BlankDocument := FrameDocument("")

  /** The fields of a printer object: its settings, the rendered element's
      outer HTML, the iframe it appended, whether it holds the iframe's
      window, and the iframe's document. */
  datatype Printer = Printer(
    settings: Settings,
    el: Option<string>,
    iframe: Option<NodeId>,
    window: bool,
    document: Option<FrameDocument>)

  /** A thrown error: an `Error` with the source's message, or the
      `TypeError` of reading a property of `null`. */
  datatype Error = Thrown(message: string) | NullDereference

  /** The host window after an operation, and what the operation returned
      or threw. Effects made before a throw stay in `world`. */
  datatype Step<+T> = Step(world: World, result: Result<T, Error>)

  /** A method call on an existing printer object: the host window and the
      printer's fields after it, and whether it returned or threw. Field
      writes made before a throw stay in `printer`, as host effects stay in
      `world`. */
  datatype Call = Call(world: World, printer: Printer, result: Result<(), Error>)

  /** The printer state before `createPrintWindow` runs. */
  function Unattached(settings: Settings, outer: string): Printer
  {
    Printer(settings, Some(outer), None, false, None)
  }
}
