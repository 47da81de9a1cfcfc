/** The two printers side by side: where their documents agree, where they
    differ, and that their effects on the host window are the same. */
module Comparison {
  import opened Wrappers
  import opened Text
  import opened Host
  import opened Styles
  import opened Dom
  import opened Surface
  import Vue = VuePdfPrinter
  import Pdf = PdfPrinter

  /** A link the newer selector matches and the older filter drops: its
      `type` is `text/css` written with some upper-case letters. */
  predicate CaseVariantType(l: Link)
  {
    Vue.Selected(l) && !Pdf.Selected(l)
  }

  /** The older filter is the stricter one. */
  lemma PdfSelectionIsStricter(l: Link)
    ensures Pdf.Selected(l) ==> Vue.Selected(l)
  {
    if Pdf.Selected(l) {
      assert l.typeAttr == Some(TextCss);
    }
  }

  /** The older printer never keeps more links, and keeps strictly fewer
      when some link's type differs from `text/css` only in letter case. */
  lemma {:induction false} SelectionCounts(ls: seq<Link>)
    ensures |Select(Pdf.Selected, ls)| <= |Select(Vue.Selected, ls)|
    ensures (exists i :: 0 <= i < |ls| && CaseVariantType(ls[i])) ==>
      |Select(Pdf.Selected, ls)| < |Select(Vue.Selected, ls)|
    decreases |ls|
  {
    if |ls| != 0 {
      var init, last := ls[..|ls| - 1], ls[|ls| - 1];
      SelectionCounts(init);
      PdfSelectionIsStricter(last);
      if exists i :: 0 <= i < |ls| && CaseVariantType(ls[i]) {
        var i :| 0 <= i < |ls| && CaseVariantType(ls[i]);
        if i < |ls| - 1 {
          assert CaseVariantType(init[i]);
        }
      }
    }
  }

  /** Both printers keep the same links, in the same order, exactly when no
      link's type is a case variant of `text/css`. */
  lemma {:induction false} SelectionsAgreeIff(ls: seq<Link>)
    ensures Select(Pdf.Selected, ls) == Select(Vue.Selected, ls) <==> forall l :: l in ls ==> !CaseVariantType(l)
    decreases |ls|
  {
    if forall l :: l in ls ==> !CaseVariantType(l) {
      if |ls| != 0 {
        var init, last := ls[..|ls| - 1], ls[|ls| - 1];
        assert forall l :: l in init ==> l in ls;
        SelectionsAgreeIff(init);
        PdfSelectionIsStricter(last);
        assert last in ls;
      }
    } else {
      var l :| l in ls && CaseVariantType(l);
      var i :| 0 <= i < |ls| && ls[i] == l;
      SelectionCounts(ls);
    }
  }

  /** The older tag is the newer one with a space before the closing `>`. */
  lemma LinkTagSpacing(href: string)
    ensures |Pdf.LinkTag(href)| == |Vue.LinkTag(href)| + 1
    ensures Pdf.LinkTag(href)[..|Pdf.LinkTag(href)| - 2] == Vue.LinkTag(href)[..|Vue.LinkTag(href)| - 1]
    ensures Pdf.LinkTag(href)[|Pdf.LinkTag(href)| - 2..] == " >"
    ensures Vue.LinkTag(href)[|Vue.LinkTag(href)| - 1..] == ">"
  {
    var stem := "<link type=\"text/css\" rel=\"stylesheet\" href=\"" + href + "\"";
    assert Vue.LinkTag(href) == stem + ">";
    assert Pdf.LinkTag(href) == stem + " >";
  }

  /** When both printers keep the same links, the older link markup is
      longer by exactly one character per kept link. */
  lemma {:induction false} LinksLengthDiffer(ls: seq<Link>)
    requires forall l :: l in ls ==> !CaseVariantType(l)
    ensures |Pdf.Links(ls)| == |Vue.Links(ls)| + |Select(Vue.Selected, ls)|
    decreases |ls|
  {
    if |ls| == 0 {
      assert Select(Vue.Selected, ls) == [];
      assert Select(Pdf.Selected, ls) == [];
    } else {
      var init, last := ls[..|ls| - 1], ls[|ls| - 1];
      assert ls == init + [last];
      assert forall l :: l in init ==> l in ls;
      assert last in ls;
      LinksLengthDiffer(init);
      LinkMarkupSnoc(Vue.Selected, Vue.LinkTag, init, last);
      LinkMarkupSnoc(Pdf.Selected, Pdf.LinkTag, init, last);
      LinkTagSpacing(last.href);
      PdfSelectionIsStricter(last);
    }
  }

  /** The second-to-last character of a non-empty link markup comes from
      the last kept link's tag. */
  lemma MarkupCloser(keep: Link -> bool, tag: string -> string, ls: seq<Link>, closer: string)
    requires |closer| == 2
    requires Select(keep, ls) != []
    requires forall h :: |tag(h)| >= 2 && tag(h)[|tag(h)| - 2..] == closer
    ensures |LinkMarkup(keep, tag, ls)| >= 2
    ensures LinkMarkup(keep, tag, ls)[|LinkMarkup(keep, tag, ls)| - 2..] == closer
  {
    var sel := Select(keep, ls);
    var ts := Tags(tag, sel);
    assert |ts| == |sel|;
    var t := ts[|ts| - 1];
    assert t == tag(sel[|sel| - 1].href);
    assert Concat(ts) == Concat(ts[..|ts| - 1]) + t;
    var m := Concat(ts);
    assert m[|m| - 2..] == t[|t| - 2..];
  }

  /** The two link markups are equal exactly when neither printer keeps a
      link: any kept link makes the older markup end in ` >` and the newer
      one in `">`. */
  lemma LinksAgreeIff(ls: seq<Link>)
    ensures Vue.Links(ls) == Pdf.Links(ls) <==> Select(Vue.Selected, ls) == []
  {
    SelectionCounts(ls);
    var sv, sp := Select(Vue.Selected, ls), Select(Pdf.Selected, ls);
    if sv == [] {
      assert sp == [];
      assert Tags(Vue.LinkTag, sv) == [] && Tags(Pdf.LinkTag, sp) == [];
    } else {
      forall h: string
        ensures |Vue.LinkTag(h)| >= 2 && Vue.LinkTag(h)[|Vue.LinkTag(h)| - 2..] == "\">"
        ensures |Pdf.LinkTag(h)| >= 2 && Pdf.LinkTag(h)[|Pdf.LinkTag(h)| - 2..] == " >"
      {
        var stem := "<link type=\"text/css\" rel=\"stylesheet\" href=\"" + h;
        assert Vue.LinkTag(h) == stem + "\">";
        assert Pdf.LinkTag(h) == stem + "\" >";
      }
      MarkupCloser(Vue.Selected, Vue.LinkTag, ls, "\">");
      var v := Vue.Links(ls);
      if sp == [] {
        assert Tags(Pdf.LinkTag, sp) == [];
        assert Pdf.Links(ls) == "";
      } else {
        MarkupCloser(Pdf.Selected, Pdf.LinkTag, ls, " >");
        var q := Pdf.Links(ls);
        assert v[|v| - 2] == '"' && q[|q| - 2] == ' ';
      }
    }
  }

  /** What the two documents share and where they part: the collected style
      and the body always agree; the title agrees only when the configured
      title is `title`; each root attribute agrees exactly when the host
      sets it; the print styles never agree. */
  lemma PagesCompared(host: Snapshot, settings: Settings, outer: string)
    ensures Vue.PageOf(host, settings, outer).style == Pdf.PageOf(host, settings, outer).style
    ensures Vue.PageOf(host, settings, outer).outer == Pdf.PageOf(host, settings, outer).outer
    ensures Vue.PageOf(host, settings, outer).title == Pdf.PageOf(host, settings, outer).title <==> settings.title == Pdf.FixedTitle
    ensures Vue.PageOf(host, settings, outer).lang == Pdf.PageOf(host, settings, outer).lang <==> host.lang.Some?
    ensures Vue.PageOf(host, settings, outer).cls == Pdf.PageOf(host, settings, outer).cls <==> host.cls.Some?
    ensures Vue.PageOf(host, settings, outer).printStyles != Pdf.PageOf(host, settings, outer).printStyles
  {
    assert |Vue.PrintStyles| != |Pdf.PrintStyles|;
  }

  /** The two constructors change the host window identically and succeed
      in the same cases; only the errors they throw differ. */
  lemma ConstructionCompared(w: World, host: Snapshot, settings: Settings, rendered: Option<string>, access: FrameAccess)
    ensures Vue.New(w, host, settings, rendered, access).world == Pdf.New(w, host, settings, rendered, access).world
    ensures Vue.New(w, host, settings, rendered, access).result.Ok? <==> Pdf.New(w, host, settings, rendered, access).result.Ok?
  {
  }

  /** On a printer in any state, the two `print()` methods have the same
      effect and fail in the same cases. */
  lemma PrintCompared(w: World, p: Printer)
    ensures Vue.Print(w, p).world == Pdf.Print(w, p).world
    ensures Vue.Print(w, p).result.Ok? <==> Pdf.Print(w, p).result.Ok?
  {
  }
}
