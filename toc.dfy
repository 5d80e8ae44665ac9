/** The table of contents `generatePdf` (src/index.ts) builds from the headers
    it collected, and its insertion into the list of page fragments. */
module Toc {
  import opened Strings
  import opened Headings

  const TocHeader := "<h2 class=\"toc-header\">Table of contents:</h2><ul class=\"toc-list\">"
  const TocFooter := "</ul>"

  /** The indentation of a header's entry: 20 pixels per level below 1. */
  function Indent(level: Level): nat {
    (level - 1) * 20
  }

  const ItemOpen := "<li class=\"toc-item\" style=\"margin-left:"
  const ItemLink := "px\"><a href=\"#"
  const ItemText := "\">"
  const ItemClose := "</a></li>"

  /** One entry, `<li class="toc-item" style="margin-left:Npx"><a href="#id">label</a></li>`. */
  function TocItem(h: HeaderEntry): string {
    ItemOpen + NatToString(Indent(h.level)) + ItemLink + h.id + ItemText + h.header + ItemClose
  }

  /** `headers.map(...)`: one entry per header, in order. */
  function TocItems(headers: seq<HeaderEntry>): seq<string> {
    seq(|headers|, i requires 0 <= i < |headers| => TocItem(headers[i]))
  }

  /** The list items joined by line breaks. */
  function TocList(headers: seq<HeaderEntry>): string {
    Join(TocItems(headers), "\n")
  }

  /** The block spliced into the fragment list. */
  function TocBlock(headers: seq<HeaderEntry>): string {
    TocHeader + TocList(headers) + TocFooter
  }

  /** A header whose text and id hold no line feed. */
  predicate OnOneLine(h: HeaderEntry) {
    '\n' !in h.header && '\n' !in h.id
  }

  /** The fixed text of an entry holds no line feed. */
  lemma ItemMarkupOnOneLine()
    ensures '\n' !in ItemOpen && '\n' !in ItemLink && '\n' !in ItemText && '\n' !in ItemClose
  {
  }

  /** A decimal rendering holds no line feed. */
  lemma DecimalOnOneLine(n: nat)
    ensures '\n' !in NatToString(n)
  {
    var m := NatToString(n);
    forall i | 0 <= i < |m| ensures m[i] != '\n' {
      assert IsDigit(m[i]);
    }
  }

  /** An entry holds no line feed when its header does not. */
  lemma TocItemOnOneLine(h: HeaderEntry)
    requires OnOneLine(h)
    ensures '\n' !in TocItem(h)
  {
    ItemMarkupOnOneLine();
    DecimalOnOneLine(Indent(h.level));
  }

  /** An entry carries the header's indentation as a decimal number of pixels
      that reads back as `(level - 1) * 20`, then its id as the link target and
      its text as the link text. */
  lemma TocItemFields(h: HeaderEntry)
    ensures exists m ::
      && AllDigits(m) && DecimalValue(m) == Indent(h.level)
      && TocItem(h) == ItemOpen + m + ItemLink + h.id + ItemText + h.header + ItemClose
  {
    var m := NatToString(Indent(h.level));
    DecimalRoundTrip(Indent(h.level));
    assert AllDigits(m) && DecimalValue(m) == Indent(h.level);
  }

  /** The list holds exactly one entry per header, in the headers' order:
      splitting it at its line feeds gives the entries back. */
  lemma TocListItems(headers: seq<HeaderEntry>)
    requires |headers| >= 1
    requires forall i :: 0 <= i < |headers| ==> OnOneLine(headers[i])
    ensures Split(TocList(headers), '\n') == TocItems(headers)
  {
    var items := TocItems(headers);
    forall i | 0 <= i < |items| ensures '\n' !in items[i] {
      TocItemOnOneLine(headers[i]);
    }
    SplitJoin(items, '\n');
  }

  /** `list.splice(start, 0, item)`: `item` is inserted at `start`, or at the
      end when `start` lies past it, and nothing else moves. */
  function Splice(list: seq<string>, start: nat, item: string): (r: seq<string>)
    ensures var k := if start <= |list| then start else |list|;
      |r| == |list| + 1 && r[k] == item && r[..k] + r[k + 1..] == list
  {
    var k := if start <= |list| then start else |list|;
    assert (list[..k] + [item] + list[k..])[k + 1..] == list[k..];
    list[..k] + [item] + list[k..]
  }
}
