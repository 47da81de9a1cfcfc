/** The print document's fixed layout, shared by both printers: a doctype,
    an `<html>` tag carrying `lang` and `class`, a head with title, link
    tags, collected style and print style, and a body holding the rendered
    element's outer HTML. Nothing is escaped: every part is spliced into the
    template text as it is. */
module Markup {
  import opened Text

  const DocType := "<!DOCTYPE html>"
  const HtmlClose := "</html>"

  /** The variable parts of a print document. */
  datatype Page = Page(
    lang: string,
    cls: string,
    title: string,
    links: string,
    style: string,
    printStyles: string,
    outer: string)

  /** The opening root tag with both attributes, in the order lang, class. */
  function HtmlOpen(lang: string, cls: string): string
  {
    "<html lang=\"" + lang + "\" class=\"" + cls + "\">"
  }

  /** The head: title, link tags, collected style, then the print style.
      It opens with the title element holding the title verbatim and closes
      with the print-style element holding the print style verbatim. */
  function Head(title: string, links: string, style: string, printStyles: string): (r: string)
    ensures "<head><title>" + title + "</title>" <= r
    ensures |"</style><style>" + printStyles + "</style></head>"| <= |r|
    ensures r[|r| - |"</style><style>" + printStyles + "</style></head>"|..] == "</style><style>" + printStyles + "</style></head>"
  {
    var a := "<head><title>" + title + "</title>";
    var z := "</style><style>" + printStyles + "</style></head>";
    var m := links + "<style type=\"text/css\">" + style;
    var r := "<head><title>" + title + "</title>" + links
      + "<style type=\"text/css\">" + style + "</style><style>" + printStyles + "</style></head>";
    assert r == a + m + z;
    r
  }

  /** The body wrapping the rendered element's outer HTML: between the
      opening and closing tags lies exactly that HTML. */
  function Body(outer: string): (r: string)
    ensures |r| == |outer| + 13
    ensures r[..6] == "<body>" && r[6..|r| - 7] == outer && r[|r| - 7..] == "</body>"
  {
    "<body>" + outer + "</body>"
  }

  /** The fragments of the root tag, the head and the body: fixed template
      text alternating with the page's variable parts. */
  function OpenFragments(lang: string, cls: string): seq<string>
  {
    ["<html lang=\"", lang, "\" class=\"", cls, "\">"]
  }

  function HeadFragments(title: string, links: string, style: string, printStyles: string): seq<string>
  {
    ["<head><title>", title, "</title>", links, "<style type=\"text/css\">", style,
     "</style><style>", printStyles, "</style></head>"]
  }

  function BodyFragments(outer: string): seq<string>
  {
    ["<body>", outer, "</body>"]
  }

  /** The whole document as one list of fragments. */
  function Fragments(p: Page): (r: seq<string>)
    ensures |r| == 19
  {
    [DocType] + OpenFragments(p.lang, p.cls) + HeadFragments(p.title, p.links, p.style, p.printStyles)
      + BodyFragments(p.outer) + [HtmlClose]
  }

  /** Positions of the variable parts among the fragments. */
  const LangAt := 2
  const ClassAt := 4
  const TitleAt := 7
  const OuterAt := 16

  /** The complete document. It opens with the doctype and the root tag
      carrying the page's attributes verbatim, and it closes with the body
      holding exactly the rendered element. */
  function Serialize(p: Page): (r: string)
    ensures DocType + HtmlOpen(p.lang, p.cls) <= r
    ensures |Body(p.outer) + HtmlClose| <= |r|
    ensures r[|r| - |Body(p.outer) + HtmlClose|..] == Body(p.outer) + HtmlClose
  {
    var front := DocType + HtmlOpen(p.lang, p.cls) + Head(p.title, p.links, p.style, p.printStyles);
    var r := front + Body(p.outer) + HtmlClose;
    assert r == DocType + HtmlOpen(p.lang, p.cls) + (Head(p.title, p.links, p.style, p.printStyles) + Body(p.outer) + HtmlClose);
    assert r == front + (Body(p.outer) + HtmlClose);
    r
  }

  lemma OpenJoin(lang: string, cls: string)
    ensures Concat(OpenFragments(lang, cls)) == HtmlOpen(lang, cls)
  {
    var o := OpenFragments(lang, cls);
    ConcatFourSteps(o, 0);
    ConcatStep(o, 4);
    assert o[..5] == o;
  }

  lemma HeadJoin(title: string, links: string, style: string, printStyles: string)
    ensures Concat(HeadFragments(title, links, style, printStyles)) == Head(title, links, style, printStyles)
  {
    var h := HeadFragments(title, links, style, printStyles);
    assert h[..0] == [];
    ConcatFourSteps(h, 0);
    var a := Concat(h[..4]);
    assert a == "<head><title>" + title + "</title>" + links;
    ConcatFourSteps(h, 4);
    var b := Concat(h[..8]);
    assert b == a + "<style type=\"text/css\">" + style + "</style><style>" + printStyles;
    ConcatStep(h, 8);
    assert h[..9] == h;
    assert Concat(h) == b + "</style></head>";
  }

  lemma BodyJoin(outer: string)
    ensures Concat(BodyFragments(outer)) == Body(outer)
  {
    var b := BodyFragments(outer);
    ConcatStep(b, 0); ConcatStep(b, 1); ConcatStep(b, 2);
    assert b[..3] == b;
  }

  /** Joining the fragments gives the document: the fragment list is a
      faithful decomposition of the template. */
  lemma SerializeIsFragments(p: Page)
    ensures Serialize(p) == Concat(Fragments(p))
  {
    var o := OpenFragments(p.lang, p.cls);
    var h := HeadFragments(p.title, p.links, p.style, p.printStyles);
    var b := BodyFragments(p.outer);
    var f1 := [DocType] + o;
    var f2 := f1 + h;
    var f3 := f2 + b;
    assert Fragments(p) == f3 + [HtmlClose];
    ConcatSnoc([], DocType);
    assert [] + [DocType] == [DocType];
    OpenJoin(p.lang, p.cls);
    ConcatAppend([DocType], o);
    assert Concat(f1) == DocType + HtmlOpen(p.lang, p.cls);
    HeadJoin(p.title, p.links, p.style, p.printStyles);
    ConcatAppend(f1, h);
    assert Concat(f2) == Concat(f1) + Head(p.title, p.links, p.style, p.printStyles);
    BodyJoin(p.outer);
    ConcatAppend(f2, b);
    assert Concat(f3) == Concat(f2) + Body(p.outer);
    ConcatSnoc(f3, HtmlClose);
  }

  /** Joined fragments split around any one of them. */
  lemma {:induction false} ConcatAround(f: seq<string>, k: nat)
    requires k < |f|
    ensures Concat(f) == Concat(f[..k]) + f[k] + Concat(f[k + 1..])
  {
    assert f == f[..k + 1] + f[k + 1..];
    ConcatAppend(f[..k + 1], f[k + 1..]);
    ConcatStep(f, k);
  }

  /** Two strings that share a prefix and a suffix and are equal agree on
      what lies between. */
  lemma CancelAround(a: string, x: string, y: string, b: string)
    requires a + x + b == a + y + b
    ensures x == y
  {
    var s := a + x + b;
    assert |x| == |y|;
    assert x == s[|a|..|a| + |x|];
  }

  /** Pages whose fragments agree everywhere but at position `k` and whose
      documents are equal agree at `k` too. */
  lemma DeterminedAt(p: Page, q: Page, k: nat)
    requires k < 19
    requires forall i :: 0 <= i < 19 && i != k ==> Fragments(p)[i] == Fragments(q)[i]
    requires Serialize(p) == Serialize(q)
    ensures Fragments(p)[k] == Fragments(q)[k]
  {
    var f, g := Fragments(p), Fragments(q);
    assert f[..k] == g[..k];
    assert f[k + 1..] == g[k + 1..];
    SerializeIsFragments(p);
    SerializeIsFragments(q);
    ConcatAround(f, k);
    ConcatAround(g, k);
    CancelAround(Concat(f[..k]), f[k], g[k], Concat(f[k + 1..]));
  }

  /** The document determines the rendered element: pages that differ only
      in their outer HTML serialise to different documents. */
  lemma SerializeDeterminesOuter(p: Page, q: Page)
    requires p.(outer := q.outer) == q
    requires Serialize(p) == Serialize(q)
    ensures p == q
  {
    DeterminedAt(p, q, OuterAt);
  }

  /** The document determines the title: pages that differ only in their
      title serialise to different documents. */
  lemma SerializeDeterminesTitle(p: Page, q: Page)
    requires p.(title := q.title) == q
    requires Serialize(p) == Serialize(q)
    ensures p == q
  {
    DeterminedAt(p, q, TitleAt);
  }

  /** The document determines `lang` when everything else agrees. */
  lemma SerializeDeterminesLang(p: Page, q: Page)
    requires p.(lang := q.lang) == q
    requires Serialize(p) == Serialize(q)
    ensures p == q
  {
    DeterminedAt(p, q, LangAt);
  }

  /** The document determines `class` when everything else agrees. */
  lemma SerializeDeterminesClass(p: Page, q: Page)
    requires p.(cls := q.cls) == q
    requires Serialize(p) == Serialize(q)
    ensures p == q
  {
    DeterminedAt(p, q, ClassAt);
  }
}
