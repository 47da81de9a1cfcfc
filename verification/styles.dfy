/** Reference definitions of style collection: which link tags and which
    rule texts end up in the print document's head, independent of whether
    a printer builds them with `map`/`join` or with an accumulating loop. */
module Styles {
  import opened Text
  import opened Host

  /** The rule texts a sheet contributes: all of them, or none when its
      rules cannot be read. */
  function RulesOf(s: Sheet): seq<string>
  {
    match s
    case Accessible(rules) => rules
    case Inaccessible => []
  }

  /** What one sheet adds to the style text: its rule texts joined in order,
      or the empty fragment when reading its rules throws. */
  function SheetText(s: Sheet): (r: string)
    ensures r == Concat(RulesOf(s))
    ensures s.Inaccessible? ==> r == ""
  {
    match s
    case Accessible(rules) => Concat(rules)
    case Inaccessible => ""
  }

  /** One fragment per sheet, in document order. */
  function SheetTexts(sheets: seq<Sheet>): seq<string>
  {
    seq(|sheets|, i requires 0 <= i < |sheets| => SheetText(sheets[i]))
  }

  /** The style text of a list of sheets: the per-sheet fragments joined.
      It is exactly every readable rule, sheet by sheet and rule by rule:
      nothing is dropped from a readable sheet and nothing is reordered. */
  function StyleText(sheets: seq<Sheet>): (r: string)
    ensures r == Concat(AllRules(sheets))
  {
    JoinedSheetTextsAreAllRules(sheets);
    Concat(SheetTexts(sheets))
  }

  /** Every readable rule, sheet by sheet and rule by rule. */
  function AllRules(sheets: seq<Sheet>): seq<string>
  {
    if |sheets| == 0 then [] else AllRules(sheets[..|sheets| - 1]) + RulesOf(sheets[|sheets| - 1])
  }

  /** The sheets whose rules can be read, in their original order. */
  function AccessibleSheets(sheets: seq<Sheet>): seq<Sheet>
  {
    if |sheets| == 0 then []
    else
      var last := sheets[|sheets| - 1];
      AccessibleSheets(sheets[..|sheets| - 1]) + (if last.Accessible? then [last] else [])
  }

  /** Style collection is compositional: the sheets of `a + b` give the
      text of `a` followed by the text of `b`. */
  lemma SheetTextsAppend(a: seq<Sheet>, b: seq<Sheet>)
    ensures SheetTexts(a + b) == SheetTexts(a) + SheetTexts(b)
  {
  }

  lemma StyleTextAppend(a: seq<Sheet>, b: seq<Sheet>)
    ensures StyleText(a + b) == StyleText(a) + StyleText(b)
  {
    SheetTextsAppend(a, b);
    ConcatAppend(SheetTexts(a), SheetTexts(b));
  }

  /** Adding one sheet at the end adds exactly that sheet's fragment. */
  lemma StyleTextSnoc(sheets: seq<Sheet>, s: Sheet)
    ensures StyleText(sheets + [s]) == StyleText(sheets) + SheetText(s)
  {
    StyleTextAppend(sheets, [s]);
    assert SheetTexts([s]) == [SheetText(s)];
    ConcatSnoc([], SheetText(s));
  }

  /** Joining the per-sheet fragments is joining every readable rule. */
  lemma {:induction false} JoinedSheetTextsAreAllRules(sheets: seq<Sheet>)
    ensures Concat(SheetTexts(sheets)) == Concat(AllRules(sheets))
    decreases |sheets|
  {
    if |sheets| != 0 {
      var init := sheets[..|sheets| - 1];
      var last := sheets[|sheets| - 1];
      assert sheets == init + [last];
      SheetTextsAppend(init, [last]);
      assert SheetTexts([last]) == [SheetText(last)];
      ConcatSnoc(SheetTexts(init), SheetText(last));
      JoinedSheetTextsAreAllRules(init);
      ConcatAppend(AllRules(init), RulesOf(last));
    }
  }

  /** An unreadable sheet anywhere in the list changes nothing: collection
      carries on past it and its neighbours contribute as before. */
  lemma InaccessibleContributesNothing(a: seq<Sheet>, b: seq<Sheet>)
    ensures StyleText(a + [Inaccessible] + b) == StyleText(a + b)
  {
    StyleTextAppend(a + [Inaccessible], b);
    StyleTextSnoc(a, Inaccessible);
    StyleTextAppend(a, b);
  }

  /** Only the unreadable sheets are omitted: collecting over all sheets is
      the same as collecting over the readable ones alone. */
  lemma {:induction false} StyleTextOmitsOnlyInaccessible(sheets: seq<Sheet>)
    ensures StyleText(sheets) == StyleText(AccessibleSheets(sheets))
    decreases |sheets|
  {
    if |sheets| == 0 {
    } else {
      var init := sheets[..|sheets| - 1];
      var last := sheets[|sheets| - 1];
      assert sheets == init + [last];
      StyleTextSnoc(init, last);
      StyleTextOmitsOnlyInaccessible(init);
      if last.Accessible? {
        StyleTextSnoc(AccessibleSheets(init), last);
      } else {
        assert AccessibleSheets(sheets) == AccessibleSheets(init);
      }
    }
  }

  /** The links a printer keeps, in document order. */
  function Select(keep: Link -> bool, ls: seq<Link>): seq<Link>
  {
    if |ls| == 0 then []
    else
      var last := ls[|ls| - 1];
      Select(keep, ls[..|ls| - 1]) + (if keep(last) then [last] else [])
  }

  /** Selection is compositional over document order. */
  lemma {:induction false} SelectAppend(keep: Link -> bool, a: seq<Link>, b: seq<Link>)
    ensures Select(keep, a + b) == Select(keep, a) + Select(keep, b)
    decreases |b|
  {
    if |b| == 0 {
      assert a + b == a;
    } else {
      var b' := b[..|b| - 1];
      assert (a + b)[..|a + b| - 1] == a + b';
      SelectAppend(keep, a, b');
    }
  }

  /** One tag per kept link, in order. */
  function Tags(tag: string -> string, sel: seq<Link>): seq<string>
  {
    seq(|sel|, i requires 0 <= i < |sel| => tag(sel[i].href))
  }

  /** The link markup of a printer: the tags of the kept links, joined. */
  function LinkMarkup(keep: Link -> bool, tag: string -> string, ls: seq<Link>): string
  {
    Concat(Tags(tag, Select(keep, ls)))
  }

  lemma TagsAppend(tag: string -> string, x: seq<Link>, y: seq<Link>)
    ensures Tags(tag, x + y) == Tags(tag, x) + Tags(tag, y)
  {
  }

  /** Link markup is compositional over document order. */
  lemma LinkMarkupAppend(keep: Link -> bool, tag: string -> string, a: seq<Link>, b: seq<Link>)
    ensures LinkMarkup(keep, tag, a + b) == LinkMarkup(keep, tag, a) + LinkMarkup(keep, tag, b)
  {
    var x, y := Select(keep, a), Select(keep, b);
    SelectAppend(keep, a, b);
    TagsAppend(tag, x, y);
    ConcatAppend(Tags(tag, x), Tags(tag, y));
  }

  /** A single link contributes its tag when kept and nothing otherwise. */
  lemma LinkMarkupOne(keep: Link -> bool, tag: string -> string, l: Link)
    ensures LinkMarkup(keep, tag, [l]) == if keep(l) then tag(l.href) else ""
  {
    assert [l][..0] == [];
    assert Select(keep, [l]) == if keep(l) then [l] else [];
    if keep(l) {
      assert Tags(tag, [l]) == [tag(l.href)];
      ConcatSnoc([], tag(l.href));
    }
  }

  /** With no empty tag, the link markup is empty exactly when no link is
      kept, and otherwise it opens with the first kept link's tag. */
  lemma LinkMarkupShape(keep: Link -> bool, tag: string -> string, ls: seq<Link>)
    requires forall h :: tag(h) != ""
    ensures LinkMarkup(keep, tag, ls) == "" <==> Select(keep, ls) == []
    ensures Select(keep, ls) != [] ==> tag(Select(keep, ls)[0].href) <= LinkMarkup(keep, tag, ls)
  {
    var sel := Select(keep, ls);
    if sel != [] {
      var ts := Tags(tag, sel);
      assert ts[..|ts| - 1] + [ts[|ts| - 1]] == ts;
      ConcatSnoc(ts[..|ts| - 1], ts[|ts| - 1]);
      assert sel == [sel[0]] + sel[1..];
      TagsAppend(tag, [sel[0]], sel[1..]);
      assert Tags(tag, [sel[0]]) == [tag(sel[0].href)];
      ConcatAppend([tag(sel[0].href)], Tags(tag, sel[1..]));
      ConcatSnoc([], tag(sel[0].href));
      assert [] + [tag(sel[0].href)] == [tag(sel[0].href)];
    }
  }

  /** Extending the list by one link extends the markup by that link's share. */
  lemma LinkMarkupSnoc(keep: Link -> bool, tag: string -> string, ls: seq<Link>, l: Link)
    ensures LinkMarkup(keep, tag, ls + [l]) == LinkMarkup(keep, tag, ls) + (if keep(l) then tag(l.href) else "")
  {
    LinkMarkupAppend(keep, tag, ls, [l]);
    LinkMarkupOne(keep, tag, l);
  }
}
