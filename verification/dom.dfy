/** The part of the host window that the printers change: the children of
    `document.body`, the listeners registered on `window`, and the effects
    recorded for the native print action and for preview windows. Node ids
    and handler identities are drawn from one counter, so every iframe and
    every pair of print handlers is fresh. */
module Dom {
  import opened Wrappers

  type NodeId = nat

  datatype EventKind = BeforePrint | AfterPrint

  /** A window listener registered by a `print()` call: the event it listens
      for and the identity of the closure pair created by that call. The
      after-print closure captures its printer, not an iframe: it reads the
      printer's iframe field only when it runs. */
  datatype Listener = Listener(kind: EventKind, token: nat)

  /** What an after-print closure reads when it runs: for the closure pair
      `token`, the `iframe` field of the printer whose `print()` created it,
      as it is at event time (`None` when the field is null). */
  type FrameLookup = nat -> Option<NodeId>

  /** The host window as the printers see it. `printRequests` lists the
      iframes whose window was asked to print. `previewWindow` is the open
      window named `Print Preview`, if any, given by everything written into
      its document so far. */
  datatype World = World(
    body: seq<NodeId>,
    listeners: seq<Listener>,
    nextId: nat,
    printRequests: seq<NodeId>,
    previewWindow: Option<string>)

  /** Every node and handler identity in use is below the counter. */
  predicate Valid(w: World)
  {
    && (forall n :: n in w.body ==> n < w.nextId)
    && (forall l :: l in w.listeners ==> l.token < w.nextId)
  }

  /** `s` with every occurrence of `x` taken out, order kept. */
  function Without<T(==,!new)>(s: seq<T>, x: T): (r: seq<T>)
    ensures forall y :: y in r <==> y in s && y != x
    ensures |r| <= |s|
  {
    if |s| == 0 then []
    else Without(s[..|s| - 1], x) + (if s[|s| - 1] == x then [] else [s[|s| - 1]])
  }

  /** Taking out an absent element changes nothing. */
  lemma {:induction false} WithoutAbsent<T(!new)>(s: seq<T>, x: T)
    requires x !in s
    ensures Without(s, x) == s
    decreases |s|
  {
    if |s| != 0 {
      WithoutAbsent(s[..|s| - 1], x);
    }
  }

  /** `document.body.appendChild` of a newly created iframe: a fresh id is
      allocated and the node becomes the body's last child. */
  function AppendFrame(w: World): (r: World)
    ensures r.body == w.body + [w.nextId]
    ensures r.nextId == w.nextId + 1
    ensures r.listeners == w.listeners && r.printRequests == w.printRequests && r.previewWindow == w.previewWindow
    ensures Valid(w) ==> Valid(r)
  {
    w.(body := w.body + [w.nextId], nextId := w.nextId + 1)
  }

  /** `document.body.removeChild(n)`: `None` when `n` is not a child, which
      is the `NotFoundError` the DOM throws. */
  function RemoveChild(w: World, n: NodeId): (r: Option<World>)
    ensures r.Some? <==> n in w.body
    ensures r.Some? ==> r.value == w.(body := Without(w.body, n))
  {
    if n in w.body then Some(w.(body := Without(w.body, n))) else None
  }

  /** `addEventListener`: a listener already registered is not added twice. */
  function AddListener(w: World, l: Listener): (r: World)
    ensures l in r.listeners
    ensures l !in w.listeners ==> r.listeners == w.listeners + [l]
    ensures r.body == w.body
  {
    if l in w.listeners then w else w.(listeners := w.listeners + [l])
  }

  /** `removeEventListener`: the listener is no longer registered. */
  function RemoveListener(w: World, l: Listener): (r: World)
    ensures l !in r.listeners
    ensures forall m :: m != l ==> (m in r.listeners <==> m in w.listeners)
    ensures r.body == w.body
  {
    w.(listeners := Without(w.listeners, l))
  }

  /** What a `print()` call does to the window once its guards pass: it
      registers a fresh no-op before-print closure and a fresh after-print
      closure, then asks the window of `frame` to print. */
  function RegisterPrintHandlers(w: World, frame: NodeId): (r: World)
    ensures Valid(w) ==> Valid(r)
    ensures Valid(w) ==> r.listeners == w.listeners + [Listener(BeforePrint, w.nextId), Listener(AfterPrint, w.nextId)]
    ensures r.body == w.body && r.previewWindow == w.previewWindow
    ensures r.printRequests == w.printRequests + [frame]
  {
    var token := w.nextId;
    var w1 := w.(nextId := token + 1);
    var w2 := AddListener(w1, Listener(BeforePrint, token));
    var w3 := AddListener(w2, Listener(AfterPrint, token));
    w3.(printRequests := w3.printRequests + [frame])
  }

  /** The after-print listeners, in registration order. */
  function AfterPrintListeners(ls: seq<Listener>): (r: seq<Listener>)
    ensures forall l :: l in r <==> l in ls && l.kind == AfterPrint
  {
    if |ls| == 0 then []
    else
      var last := ls[|ls| - 1];
      AfterPrintListeners(ls[..|ls| - 1]) + (if last.kind == AfterPrint then [last] else [])
  }

  lemma {:induction false} AfterPrintListenersAppend(a: seq<Listener>, b: seq<Listener>)
    ensures AfterPrintListeners(a + b) == AfterPrintListeners(a) + AfterPrintListeners(b)
    decreases |b|
  {
    if |b| == 0 {
      assert a + b == a;
    } else {
      var b' := b[..|b| - 1];
      assert (a + b)[..|a + b| - 1] == a + b';
      AfterPrintListenersAppend(a, b');
    }
  }

  /** Whether the after-print closure of pair `token` finds its printer's
      iframe attached: the field is set and the node is a child of the body. */
  predicate FrameAttached(w: World, token: nat, iframeOf: FrameLookup)
  {
    iframeOf(token).Some? && iframeOf(token).value in w.body
  }

  /** One after-print closure runs: it removes its printer's current iframe
      from the body, then both closures of its pair. A null field
      (`removeChild(null)` throws a `TypeError`) or an iframe that is no
      longer a child (`NotFoundError`) stops the closure at its first line,
      the event loop reports the error, and both listeners stay
      registered. */
  function RunAfterPrint(w: World, h: Listener, iframeOf: FrameLookup): (r: World)
    ensures FrameAttached(w, h.token, iframeOf) ==>
      && r.body == Without(w.body, iframeOf(h.token).value)
      && h !in r.listeners && Listener(BeforePrint, h.token) !in r.listeners
      && (forall m :: m != h && m != Listener(BeforePrint, h.token) ==> (m in r.listeners <==> m in w.listeners))
    ensures !FrameAttached(w, h.token, iframeOf) ==> r == w
    ensures forall n :: n in r.body ==> n in w.body
    ensures forall l :: l in r.listeners ==> l in w.listeners
    ensures r.nextId == w.nextId && r.printRequests == w.printRequests && r.previewWindow == w.previewWindow
  {
    match iframeOf(h.token)
    case None => w
    case Some(frame) =>
      match RemoveChild(w, frame)
      case None => w
      case Some(w1) =>
        RemoveListener(RemoveListener(w1, Listener(BeforePrint, h.token)), h)
  }

  /** Dispatch to the listeners collected when the event fired; one removed
      by an earlier closure during the dispatch is skipped. Closures only
      ever take nodes out of the body and listeners off the window. */
  function Dispatch(w: World, pending: seq<Listener>, iframeOf: FrameLookup): (r: World)
    ensures forall n :: n in r.body ==> n in w.body
    ensures forall l :: l in r.listeners ==> l in w.listeners
    ensures r.nextId == w.nextId && r.printRequests == w.printRequests && r.previewWindow == w.previewWindow
    ensures Valid(w) ==> Valid(r)
    decreases |pending|
  {
    if |pending| == 0 then w
    else
      var h := pending[0];
      var w1 := if h in w.listeners then RunAfterPrint(w, h, iframeOf) else w;
      Dispatch(w1, pending[1..], iframeOf)
  }

  /** Delivery of one `afterprint` event to the window: every after-print
      closure registered at that moment runs once, in registration order. */
  function DeliverAfterPrint(w: World, iframeOf: FrameLookup): (r: World)
    ensures forall n :: n in r.body ==> n in w.body
    ensures forall l :: l in r.listeners ==> l in w.listeners
    ensures r.nextId == w.nextId && r.printRequests == w.printRequests && r.previewWindow == w.previewWindow
    ensures Valid(w) ==> Valid(r)
  {
    Dispatch(w, AfterPrintListeners(w.listeners), iframeOf)
  }

  /** A closure pair appended to a list with no after-print listener: its
      after-print closure is the only one pending. */
  lemma PairPending(ls: seq<Listener>, t: nat)
    requires AfterPrintListeners(ls) == []
    ensures AfterPrintListeners(ls + [Listener(BeforePrint, t), Listener(AfterPrint, t)]) == [Listener(AfterPrint, t)]
  {
    var before := Listener(BeforePrint, t);
    var after := Listener(AfterPrint, t);
    assert ls + [before, after] == (ls + [before]) + [after];
    AfterPrintListenersAppend(ls + [before], [after]);
    AfterPrintListenersAppend(ls, [before]);
    assert AfterPrintListeners([before]) == [] by {
      assert [before][..0] == [];
    }
    assert AfterPrintListeners([after]) == [after] by {
      assert [after][..0] == [];
    }
  }

  /** Right after a `print()` with no other print pending, the only
      after-print listener is the one that call registered. */
  lemma PendingAfterRegister(w: World, frame: NodeId)
    requires Valid(w)
    requires AfterPrintListeners(w.listeners) == []
    ensures AfterPrintListeners(RegisterPrintHandlers(w, frame).listeners) == [Listener(AfterPrint, w.nextId)]
  {
    PairPending(w.listeners, w.nextId);
  }

  /** Dispatch to a single pending listener runs it if it is registered. */
  lemma DispatchOne(w: World, h: Listener, iframeOf: FrameLookup)
    ensures Dispatch(w, [h], iframeOf) == if h in w.listeners then RunAfterPrint(w, h, iframeOf) else w
  {
    assert [h][1..] == [];
  }

  /** Taking out `x` after appending `y`. */
  lemma WithoutSnoc<T(!new)>(s: seq<T>, y: T, x: T)
    ensures Without(s + [y], x) == Without(s, x) + (if y == x then [] else [y])
  {
    assert (s + [y])[..|s|] == s;
  }

  /** Removing a freshly appended pair gives back the list it was added to. */
  lemma RemovePairRestores(ls: seq<Listener>, before: Listener, after: Listener)
    requires before !in ls && after !in ls && before != after
    ensures Without(Without(ls + [before, after], before), after) == ls
  {
    assert ls + [before, after] == (ls + [before]) + [after];
    WithoutSnoc(ls + [before], after, before);
    WithoutSnoc(ls, before, before);
    WithoutAbsent(ls, before);
    var once := Without(ls + [before, after], before);
    assert once == ls + [after];
    WithoutSnoc(ls, after, after);
    WithoutAbsent(ls, after);
  }

  /** An `afterprint` while the newest closure pair `t` is the only one
      pending, whatever happened to the body since it was registered: if
      the printer's iframe is attached, it leaves the body and the pair
      leaves the window; otherwise nothing changes. */
  lemma {:induction false} DeliverToLastPair(v: World, ls: seq<Listener>, t: nat, iframeOf: FrameLookup)
    requires v.listeners == ls + [Listener(BeforePrint, t), Listener(AfterPrint, t)]
    requires Listener(BeforePrint, t) !in ls && Listener(AfterPrint, t) !in ls
    requires AfterPrintListeners(ls) == []
    ensures FrameAttached(v, t, iframeOf) ==>
      && DeliverAfterPrint(v, iframeOf).listeners == ls
      && DeliverAfterPrint(v, iframeOf).body == Without(v.body, iframeOf(t).value)
    ensures !FrameAttached(v, t, iframeOf) ==> DeliverAfterPrint(v, iframeOf) == v
  {
    var before := Listener(BeforePrint, t);
    var after := Listener(AfterPrint, t);
    PairPending(ls, t);
    DispatchOne(v, after, iframeOf);
    if FrameAttached(v, t, iframeOf) {
      RemovePairRestores(ls, before, after);
    }
  }

  /** `DeliverToLastPair` for a known attached iframe `f`. */
  lemma DeliverToLastPairRemoves(v: World, ls: seq<Listener>, t: nat, f: NodeId, iframeOf: FrameLookup)
    requires v.listeners == ls + [Listener(BeforePrint, t), Listener(AfterPrint, t)]
    requires Listener(BeforePrint, t) !in ls && Listener(AfterPrint, t) !in ls
    requires AfterPrintListeners(ls) == []
    requires iframeOf(t) == Some(f) && f in v.body
    ensures DeliverAfterPrint(v, iframeOf).listeners == ls
    ensures DeliverAfterPrint(v, iframeOf).body == Without(v.body, f)
  {
    DeliverToLastPair(v, ls, t, iframeOf);
  }

  /** One `print()` followed by one `afterprint`, with no other print
      pending and the printer's iframe still attached: the iframe leaves
      the body and the listener list is back to what it was before the
      call. */
  lemma {:induction false} PrintThenAfterPrint(w: World, frame: NodeId, iframeOf: FrameLookup)
    requires Valid(w)
    requires FrameAttached(w, w.nextId, iframeOf)
    requires AfterPrintListeners(w.listeners) == []
    ensures DeliverAfterPrint(RegisterPrintHandlers(w, frame), iframeOf).listeners == w.listeners
    ensures DeliverAfterPrint(RegisterPrintHandlers(w, frame), iframeOf).body == Without(w.body, iframeOf(w.nextId).value)
    ensures iframeOf(w.nextId).value !in DeliverAfterPrint(RegisterPrintHandlers(w, frame), iframeOf).body
  {
    var w1 := RegisterPrintHandlers(w, frame);
    assert Listener(BeforePrint, w.nextId) !in w.listeners;
    assert Listener(AfterPrint, w.nextId) !in w.listeners;
    DeliverToLastPair(w1, w.listeners, w.nextId, iframeOf);
  }

  /** A `print()` whose after-print closure finds no iframe to remove (the
      printer's field is null, or the iframe was already removed, as after
      an earlier print): the closure throws, and its two listeners stay
      registered for good. */
  lemma {:induction false} MissingFrameLeavesListeners(w: World, frame: NodeId, iframeOf: FrameLookup)
    requires Valid(w)
    requires !FrameAttached(w, w.nextId, iframeOf)
    requires AfterPrintListeners(w.listeners) == []
    ensures DeliverAfterPrint(RegisterPrintHandlers(w, frame), iframeOf).listeners
         == w.listeners + [Listener(BeforePrint, w.nextId), Listener(AfterPrint, w.nextId)]
    ensures DeliverAfterPrint(RegisterPrintHandlers(w, frame), iframeOf).body == w.body
  {
    var w1 := RegisterPrintHandlers(w, frame);
    assert Listener(BeforePrint, w.nextId) !in w.listeners;
    assert Listener(AfterPrint, w.nextId) !in w.listeners;
    DeliverToLastPair(w1, w.listeners, w.nextId, iframeOf);
  }

  /** A new iframe appended between `print()` and `afterprint`, with the
      printer's field moved to it: delivery removes the new iframe and the
      closure pair, and the body is left as it was before the append. */
  lemma {:induction false} SwapFrameBeforeAfterPrint(w: World, frame: NodeId, iframeOf: FrameLookup)
    requires Valid(w)
    requires AfterPrintListeners(w.listeners) == []
    requires iframeOf(w.nextId) == Some(w.nextId + 1)
    ensures DeliverAfterPrint(AppendFrame(RegisterPrintHandlers(w, frame)), iframeOf).body == w.body
    ensures DeliverAfterPrint(AppendFrame(RegisterPrintHandlers(w, frame)), iframeOf).listeners == w.listeners
  {
    var t := w.nextId;
    var n: NodeId := w.nextId + 1;
    var c := AppendFrame(RegisterPrintHandlers(w, frame));
    assert c.listeners == w.listeners + [Listener(BeforePrint, t), Listener(AfterPrint, t)];
    assert Listener(BeforePrint, t) !in w.listeners && Listener(AfterPrint, t) !in w.listeners;
    DeliverToLastPairRemoves(c, w.listeners, t, n, iframeOf);
    assert n !in w.body;
    WithoutSnoc(w.body, n, n);
    WithoutAbsent(w.body, n);
  }

  // ------------------------------------------------------------- preview

  /** `window.open('', 'Print Preview', …)` followed by `document.write` of
      `markup`. An open window of that name is handed back again and, the
      URL being empty, not reloaded; the printers never close its document,
      so the write appends to what is there. With no such window,
      `windowOpens` says whether a new one is granted (`None` is the `null`
      a blocked popup gives); its blank document receives the markup. */
  function PreviewWrite(w: World, markup: string, windowOpens: bool): (r: Option<World>)
    ensures r.None? <==> w.previewWindow.None? && !windowOpens
    ensures r.Some? ==> r.value.previewWindow.Some?
    ensures r.Some? ==> w.previewWindow.GetOr("") <= r.value.previewWindow.value
    ensures r.Some? ==> r.value.previewWindow.value[|w.previewWindow.GetOr("")|..] == markup
    ensures r.Some? ==> r.value.(previewWindow := w.previewWindow) == w
  {
    match w.previewWindow
    case Some(shown) => Some(w.(previewWindow := Some(shown + markup)))
    case None => if windowOpens then Some(w.(previewWindow := Some(markup))) else None
  }

  /** The user closes the preview window; the printers never do. */
  function ClosePreviewWindow(w: World): World
  {
    w.(previewWindow := None)
  }
}
