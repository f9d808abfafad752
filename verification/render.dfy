/** The HTML fragments the report builds from an issue's `extra_data`: the
    bullet lists of entity ids and invalid values, the records table, the
    summary list, and the box that holds them. Every fragment is the exact
    string the report writes; each rendering lemma reads the fragment back
    with `Html.Tokenize` and says what it shows. */
module Render {
  import opened Wrappers
  import opened Values
  import opened Html
  import Text
  import Assoc

  const MaxListItems: nat := 10
  const MaxTableRows: nat := 10

  const SectionOpen: string := "<div class=\"extra-data-section\">"
  const TitleOpen: string := "<div class=\"extra-data-title\">"
  const ListOpen: string := "<ul class=\"extra-data-list\">"
  const NoticeOpen: string := "<div class=\"truncation-notice\">"
  const TableOpen: string := "<table class=\"extra-data-table\">"
  const ExtraOpen: string := "<div class=\"extra-data\">"
  const DivClose: string := "</div>"

  const EntityIdsTitle: string := "Entity IDs"
  const InvalidValuesTitle: string := "Invalid Values"

  function Min(a: nat, b: nat): nat
  {
    if a <= b then a else b
  }

  /** The text of a truncation notice. */
  function Notice(shown: nat, total: nat, what: string): string
  {
    "Showing first " + Text.NatToString(shown) + " of " + Text.NatToString(total) + " " + what
  }

  /** `_escape_html(str(v))` for each value. */
  function EscapedStrs(xs: seq<Value>): (es: seq<string>)
    ensures |es| == |xs|
    ensures forall i :: 0 <= i < |xs| ==> es[i] == EscapeHtml(Str(xs[i]))
  {
    seq(|xs|, i requires 0 <= i < |xs| => EscapeHtml(Str(xs[i])))
  }

  // ---- _format_list ----

  /** `_format_list`: a titled section with one bullet per item shown, at most
      `maxItems` of them, and a notice when items were left out. */
  function FormatList(items: seq<Value>, title: string, maxItems: nat): string
  {
    var shown := items[..Min(|items|, maxItems)];
    SectionOpen + TitleOpen + title + ":" + DivClose + ListOpen
    + ElementsText("<li>", EscapedStrs(shown), "</li>")
    + "</ul>"
    + (if |items| > maxItems then NoticeOpen + Notice(maxItems, |items|, "items") + DivClose else "")
    + DivClose
  }

  // ---- Token views of the fragments ----

  /** The opening of every section: its frame and its title. */
  function SectionHead(title: string): seq<Token>
  {
    [Tag(SectionOpen)] + Element(TitleOpen, title, DivClose)
  }

  function NoticeToks(present: bool, shown: nat, total: nat, what: string): seq<Token>
  {
    if present then Element(NoticeOpen, Notice(shown, total, what), DivClose) else []
  }

  lemma LiteralTags()
    ensures IsTag(SectionOpen) && IsTag(TitleOpen) && IsTag(ListOpen) && IsTag(NoticeOpen)
    ensures IsTag(TableOpen) && IsTag(ExtraOpen) && IsTag(DivClose)
    ensures IsTag("<li>") && IsTag("</li>") && IsTag("</ul>") && IsTag("<strong>") && IsTag("</strong>")
    ensures IsTag("<thead>") && IsTag("</thead>") && IsTag("<tbody>") && IsTag("</tbody>")
    ensures IsTag("<tr>") && IsTag("</tr>") && IsTag("<th>") && IsTag("</th>")
    ensures IsTag("<td>") && IsTag("</td>") && IsTag("</table>")
  {
  }

  lemma SectionHeadFacts(title: string)
    requires '<' !in title
    ensures WellFormed(SectionHead(title)) && TagBounded(SectionHead(title))
    ensures Serialize(SectionHead(title)) == SectionOpen + TitleOpen + title + DivClose
    ensures TagsAmong(SectionHead(title), {SectionOpen, TitleOpen, DivClose})
    ensures Entries(SectionHead(title), TitleOpen) == [title]
    ensures EndsOff(SectionHead(title), TitleOpen)
  {
    LiteralTags();
    var e := Element(TitleOpen, title, DivClose);
    ElementFacts(TitleOpen, title, DivClose);
    TagFacts(SectionOpen);
    Glue([Tag(SectionOpen)], e);
    GlueReads([Tag(SectionOpen)], e, TitleOpen);
    TagsAmongAppend([Tag(SectionOpen)], e, {SectionOpen, TitleOpen, DivClose});
  }

  lemma SectionHeadLacks(title: string, name: string)
    requires '<' !in title
    requires name != SectionOpen && name != TitleOpen && name != DivClose
    ensures Lacks(SectionHead(title), name)
  {
    SectionHeadFacts(title);
    LacksAmong(SectionHead(title), {SectionOpen, TitleOpen, DivClose}, name);
  }

  lemma NaturalText(n: nat)
    ensures '<' !in Text.NatToString(n)
  {
    var s := Text.NatToString(n);
    assert forall i :: 0 <= i < |s| ==> s[i] != '<';
  }

  lemma NoticeFacts(present: bool, shown: nat, total: nat, what: string)
    requires '<' !in what
    ensures WellFormed(NoticeToks(present, shown, total, what)) && TagBounded(NoticeToks(present, shown, total, what))
    ensures Serialize(NoticeToks(present, shown, total, what))
         == if present then NoticeOpen + Notice(shown, total, what) + DivClose else ""
    ensures TagsAmong(NoticeToks(present, shown, total, what), {NoticeOpen, DivClose})
    ensures Entries(NoticeToks(present, shown, total, what), NoticeOpen)
         == if present then [Notice(shown, total, what)] else []
    ensures EndsOff(NoticeToks(present, shown, total, what), NoticeOpen)
  {
    LiteralTags();
    if present {
      NaturalText(shown);
      NaturalText(total);
      var m := Notice(shown, total, what);
      assert '<' !in m;
      ElementFacts(NoticeOpen, m, DivClose);
    }
  }

  lemma NoticeLacks(present: bool, shown: nat, total: nat, what: string, name: string)
    requires '<' !in what
    requires name != NoticeOpen && name != DivClose
    ensures Lacks(NoticeToks(present, shown, total, what), name)
  {
    NoticeFacts(present, shown, total, what);
    LacksAmong(NoticeToks(present, shown, total, what), {NoticeOpen, DivClose}, name);
  }

  lemma EscapedNoOpen(es: seq<string>, xs: seq<Value>)
    requires es == EscapedStrs(xs)
    ensures forall i :: 0 <= i < |es| ==> '<' !in es[i]
  {
    forall i | 0 <= i < |es| ensures '<' !in es[i] {
      assert NoMarkup(es[i]);
    }
  }

  // ---- The list fragment ----

  function Bullets(xs: seq<Value>): seq<Token>
  {
    Elements("<li>", EscapedStrs(xs), "</li>")
  }

  lemma BulletsFacts(xs: seq<Value>)
    ensures WellFormed(Bullets(xs)) && TagBounded(Bullets(xs))
    ensures Serialize(Bullets(xs)) == ElementsText("<li>", EscapedStrs(xs), "</li>")
    ensures CountTag(Bullets(xs), "<li>") == |xs|
    ensures Entries(Bullets(xs), "<li>") == EscapedStrs(xs)
    ensures EndsOff(Bullets(xs), "<li>")
  {
    LiteralTags();
    EscapedNoOpen(EscapedStrs(xs), xs);
    ElementsFacts("<li>", EscapedStrs(xs), "</li>");
  }

  lemma BulletsLacks(xs: seq<Value>, name: string)
    requires name != "<li>" && name != "</li>"
    ensures Lacks(Bullets(xs), name)
  {
    LiteralTags();
    EscapedNoOpen(EscapedStrs(xs), xs);
    ElementsLacks("<li>", EscapedStrs(xs), "</li>", name);
  }

  /** The parts of a list fragment: head, list open, bullets, list close,
      notice, frame close. */
  function ListParts(items: seq<Value>, title: string, maxItems: nat): seq<seq<Token>>
  {
    [SectionHead(title + ":"), [Tag(ListOpen)], Bullets(items[..Min(|items|, maxItems)]),
     [Tag("</ul>")], NoticeToks(|items| > maxItems, maxItems, |items|, "items"), [Tag(DivClose)]]
  }

  lemma HeadBounded(title: string)
    requires '<' !in title
    ensures WellFormed(SectionHead(title)) && TagBounded(SectionHead(title))
  {
    SectionHeadFacts(title);
  }

  lemma BulletsBounded(xs: seq<Value>)
    ensures WellFormed(Bullets(xs)) && TagBounded(Bullets(xs))
  {
    BulletsFacts(xs);
  }

  lemma NoticeBounded(present: bool, shown: nat, total: nat, what: string)
    requires '<' !in what
    ensures WellFormed(NoticeToks(present, shown, total, what)) && TagBounded(NoticeToks(present, shown, total, what))
  {
    NoticeFacts(present, shown, total, what);
  }

  lemma ListPartsBounded(items: seq<Value>, title: string, maxItems: nat)
    requires '<' !in title
    ensures forall i :: 0 <= i < |ListParts(items, title, maxItems)| ==>
      WellFormed(ListParts(items, title, maxItems)[i]) && TagBounded(ListParts(items, title, maxItems)[i])
  {
    HeadBounded(title + ":");
    BulletsBounded(items[..Min(|items|, maxItems)]);
    NoticeBounded(|items| > maxItems, maxItems, |items|, "items");
    ListTagsBounded();
  }

  lemma ListTagsBounded()
    ensures WellFormed([Tag(ListOpen)]) && TagBounded([Tag(ListOpen)])
    ensures WellFormed([Tag("</ul>")]) && TagBounded([Tag("</ul>")])
    ensures WellFormed([Tag(DivClose)]) && TagBounded([Tag(DivClose)])
  {
    LiteralTags();
  }

  function ListNoticeText(items: seq<Value>, maxItems: nat): string
  {
    if |items| > maxItems then NoticeOpen + Notice(maxItems, |items|, "items") + DivClose else ""
  }

  lemma ListReassoc(so: string, to: string, title: string, dc: string, lo: string, e: string, n: string)
    ensures so + to + title + ":" + dc + lo + e + "</ul>" + n + dc
         == (so + to + (title + ":") + dc) + (lo + (e + ("</ul>" + (n + dc))))
  {
  }

  lemma FormatListNested(items: seq<Value>, title: string, maxItems: nat)
    ensures FormatList(items, title, maxItems)
         == (SectionOpen + TitleOpen + (title + ":") + DivClose)
          + (ListOpen + (ElementsText("<li>", EscapedStrs(items[..Min(|items|, maxItems)]), "</li>")
          + ("</ul>" + (ListNoticeText(items, maxItems) + DivClose))))
  {
    ListReassoc(SectionOpen, TitleOpen, title, DivClose, ListOpen,
      ElementsText("<li>", EscapedStrs(items[..Min(|items|, maxItems)]), "</li>"), ListNoticeText(items, maxItems));
  }

  lemma ListSerializeAll(items: seq<Value>, title: string, maxItems: nat)
    requires '<' !in title
    ensures SerializeAll(ListParts(items, title, maxItems)) == FormatList(items, title, maxItems)
  {
    var hd := SectionHead(title + ":");
    var el := Bullets(items[..Min(|items|, maxItems)]);
    var nt := NoticeToks(|items| > maxItems, maxItems, |items|, "items");
    SerializeAll6(hd, [Tag(ListOpen)], el, [Tag("</ul>")], nt, [Tag(DivClose)]);
    HeadText(title + ":");
    BulletsText(items[..Min(|items|, maxItems)]);
    ListNoticeSer(items, maxItems);
    TagText(DivClose);
    TagText("</ul>");
    TagText(ListOpen);
    FormatListNested(items, title, maxItems);
  }

  lemma HeadText(title: string)
    requires '<' !in title
    ensures Serialize(SectionHead(title)) == SectionOpen + TitleOpen + title + DivClose
  {
    SectionHeadFacts(title);
  }

  lemma BulletsText(xs: seq<Value>)
    ensures Serialize(Bullets(xs)) == ElementsText("<li>", EscapedStrs(xs), "</li>")
  {
    BulletsFacts(xs);
  }

  lemma ListNoticeSer(items: seq<Value>, maxItems: nat)
    ensures Serialize(NoticeToks(|items| > maxItems, maxItems, |items|, "items")) == ListNoticeText(items, maxItems)
  {
    NoticeFacts(|items| > maxItems, maxItems, |items|, "items");
  }

  lemma TagText(t: string)
    ensures Serialize([Tag(t)]) == t
  {
  }

  lemma ListShape(items: seq<Value>, title: string, maxItems: nat)
    requires '<' !in title
    ensures WellFormed(Join(ListParts(items, title, maxItems)))
    ensures Serialize(Join(ListParts(items, title, maxItems))) == FormatList(items, title, maxItems)
  {
    ListPartsBounded(items, title, maxItems);
    JoinShape(ListParts(items, title, maxItems));
    ListSerializeAll(items, title, maxItems);
  }

  lemma ListBullets(items: seq<Value>, title: string, maxItems: nat)
    requires '<' !in title
    ensures CountTag(Join(ListParts(items, title, maxItems)), "<li>") == Min(|items|, maxItems)
    ensures Entries(Join(ListParts(items, title, maxItems)), "<li>") == EscapedStrs(items[..Min(|items|, maxItems)])
  {
    var shown := items[..Min(|items|, maxItems)];
    BulletsFacts(shown);
    SectionHeadLacks(title + ":", "<li>");
    NoticeLacks(|items| > maxItems, maxItems, |items|, "items", "<li>");
    LacksTag(ListOpen, "<li>");
    LacksTag("</ul>", "<li>");
    LacksTag(DivClose, "<li>");
    Only6(SectionHead(title + ":"), [Tag(ListOpen)], Bullets(shown), [Tag("</ul>")],
      NoticeToks(|items| > maxItems, maxItems, |items|, "items"), [Tag(DivClose)], 2, "<li>");
  }

  lemma ListTitle(items: seq<Value>, title: string, maxItems: nat)
    requires '<' !in title
    ensures Entries(Join(ListParts(items, title, maxItems)), TitleOpen) == [title + ":"]
  {
    var shown := items[..Min(|items|, maxItems)];
    SectionHeadFacts(title + ":");
    BulletsLacks(shown, TitleOpen);
    NoticeLacks(|items| > maxItems, maxItems, |items|, "items", TitleOpen);
    LacksTag(ListOpen, TitleOpen);
    LacksTag("</ul>", TitleOpen);
    LacksTag(DivClose, TitleOpen);
    Only6(SectionHead(title + ":"), [Tag(ListOpen)], Bullets(shown), [Tag("</ul>")],
      NoticeToks(|items| > maxItems, maxItems, |items|, "items"), [Tag(DivClose)], 0, TitleOpen);
  }

  lemma ListNotice(items: seq<Value>, title: string, maxItems: nat)
    requires '<' !in title
    ensures Entries(Join(ListParts(items, title, maxItems)), NoticeOpen)
         == if |items| > maxItems then [Notice(maxItems, |items|, "items")] else []
  {
    var shown := items[..Min(|items|, maxItems)];
    NoticeFacts(|items| > maxItems, maxItems, |items|, "items");
    SectionHeadLacks(title + ":", NoticeOpen);
    BulletsLacks(shown, NoticeOpen);
    LacksTag(ListOpen, NoticeOpen);
    LacksTag("</ul>", NoticeOpen);
    LacksTag(DivClose, NoticeOpen);
    Only6(SectionHead(title + ":"), [Tag(ListOpen)], Bullets(shown), [Tag("</ul>")],
      NoticeToks(|items| > maxItems, maxItems, |items|, "items"), [Tag(DivClose)], 4, NoticeOpen);
  }

  /** What a rendered list shows: exactly `min(len(items), maxItems)` bullets,
      holding the first items in order, each escaped; the title once; and the
      truncation notice exactly when there were more items than shown. */
  lemma ListRendering(items: seq<Value>, title: string, maxItems: nat)
    requires '<' !in title
    ensures var ts := Tokenize(FormatList(items, title, maxItems));
      && CountTag(ts, "<li>") == Min(|items|, maxItems)
      && Entries(ts, "<li>") == EscapedStrs(items[..Min(|items|, maxItems)])
      && Entries(ts, TitleOpen) == [title + ":"]
      && Entries(ts, NoticeOpen) == if |items| > maxItems then [Notice(maxItems, |items|, "items")] else []
  {
    ListShape(items, title, maxItems);
    ListBullets(items, title, maxItems);
    ListTitle(items, title, maxItems);
    ListNotice(items, title, maxItems);
    TokenizeSerialize(Join(ListParts(items, title, maxItems)));
  }

  // ---- The records table ----

  /** Each record as a dictionary, or `None` when one is not: only
      dictionaries have the `get` the table calls on every record shown. */
  function Dicts(vs: seq<Value>): (r: Option<seq<Record>>)
    ensures r.Some? <==> forall i :: 0 <= i < |vs| ==> vs[i].VDict?
    ensures r.Some? ==> |r.value| == |vs| && forall i :: 0 <= i < |vs| ==> r.value[i] == vs[i].entries
  {
    if vs == [] then Some([])
    else if !vs[0].VDict? then None
    else match Dicts(vs[1..])
      case None => None
      case Some(rest) => Some([vs[0].entries] + rest)
  }

  /** `_escape_html(str(header))` for each column header. */
  function EscapedHeaders(hs: seq<string>): (es: seq<string>)
    ensures |es| == |hs|
    ensures forall i :: 0 <= i < |hs| ==> es[i] == EscapeHtml(hs[i])
  {
    seq(|hs|, i requires 0 <= i < |hs| => EscapeHtml(hs[i]))
  }

  /** `_escape_html(str(record.get(header, '')))`: a missing column shows as
      an empty cell. */
  function Cell(rec: Record, h: string): string
  {
    EscapeHtml(Str(Assoc.Get(rec, h).GetOr(VStr(""))))
  }

  /** The cell texts of the records shown, one row per record and one column
      per header. */
  function Grid(recs: seq<Record>, hs: seq<string>): (g: seq<seq<string>>)
    ensures |g| == |recs|
    ensures forall r :: 0 <= r < |recs| ==> |g[r]| == |hs|
    ensures forall r, c :: 0 <= r < |recs| && 0 <= c < |hs| ==> g[r][c] == Cell(recs[r], hs[c])
  {
    seq(|recs|, r requires 0 <= r < |recs| => seq(|hs|, c requires 0 <= c < |hs| => Cell(recs[r], hs[c])))
  }

  /** The rows written one after another. */
  function Flatten(rows: seq<seq<string>>): seq<string>
  {
    if rows == [] then [] else rows[0] + Flatten(rows[1..])
  }

  /** `r * n`, counted up row by row. */
  function Offset(r: nat, n: nat): nat
  {
    if r == 0 then 0 else n + Offset(r - 1, n)
  }

  lemma MulStep(r: nat, n: nat)
    requires r > 0
    ensures r * n == n + (r - 1) * n
  {
  }

  lemma {:induction false} OffsetIsProduct(r: nat, n: nat)
    ensures Offset(r, n) == r * n
  {
    if r > 0 {
      OffsetIsProduct(r - 1, n);
      MulStep(r, n);
    }
  }

  lemma {:induction false} FlattenLength(rows: seq<seq<string>>, n: nat)
    requires forall r :: 0 <= r < |rows| ==> |rows[r]| == n
    ensures |Flatten(rows)| == Offset(|rows|, n)
  {
    if rows != [] {
      FlattenLength(rows[1..], n);
    }
  }

  lemma {:induction false} FlattenAt(rows: seq<seq<string>>, n: nat, r: nat, c: nat)
    requires forall i :: 0 <= i < |rows| ==> |rows[i]| == n
    requires r < |rows| && c < n
    ensures Offset(r, n) + c < |Flatten(rows)|
    ensures Flatten(rows)[Offset(r, n) + c] == rows[r][c]
  {
    if r > 0 {
      FlattenAt(rows[1..], n, r - 1, c);
      assert rows[1..][r - 1] == rows[r];
    }
  }

  /** The table's cells, read row-major, are the records' cells: there are
      `len(records) * len(headers)` of them, and column `c` of record `r`
      sits at `r * len(headers) + c`. */
  lemma CellsAt(recs: seq<Record>, hs: seq<string>, r: nat, c: nat)
    requires r < |recs| && c < |hs|
    ensures |Flatten(Grid(recs, hs))| == |recs| * |hs|
    ensures r * |hs| + c < |Flatten(Grid(recs, hs))|
    ensures Flatten(Grid(recs, hs))[r * |hs| + c] == Cell(recs[r], hs[c])
  {
    var g := Grid(recs, hs);
    FlattenLength(g, |hs|);
    FlattenAt(g, |hs|, r, c);
    OffsetIsProduct(r, |hs|);
    OffsetIsProduct(|recs|, |hs|);
  }

  function RowText(cs: seq<string>): string
  {
    "<tr>" + ElementsText("<td>", cs, "</td>") + "</tr>"
  }

  function RowsText(rows: seq<seq<string>>): string
  {
    if rows == [] then "" else RowText(rows[0]) + RowsText(rows[1..])
  }

  function TableNoticeText(total: nat, maxRows: nat): string
  {
    if total > maxRows then NoticeOpen + Notice(maxRows, total, "records") + DivClose else ""
  }

  /** The table the report writes: title, header row, one row per record
      shown, and the notice when records were left out. */
  function TableText(hs: seq<string>, rows: seq<seq<string>>, total: nat, maxRows: nat): string
  {
    SectionOpen + TitleOpen + "Detailed Records:" + DivClose + TableOpen + "<thead>" + "<tr>"
    + ElementsText("<th>", EscapedHeaders(hs), "</th>") + "</tr>" + "</thead>"
    + "<tbody>" + RowsText(rows) + "</tbody>" + "</table>"
    + TableNoticeText(total, maxRows)
    + DivClose
  }

  /** The cells of the records shown, row by row. With no headers every row
      is empty and no record is looked into; otherwise `None` stands for the
      exception `get` raises on a record that is not a dictionary. */
  function ShownCells(hs: seq<string>, shown: seq<Value>): (r: Option<seq<seq<string>>>)
    ensures r.Some? <==> hs == [] || forall i :: 0 <= i < |shown| ==> shown[i].VDict?
    ensures r.Some? ==> |r.value| == |shown|
    ensures r.Some? && hs == [] ==> forall i :: 0 <= i < |shown| ==> r.value[i] == []
    ensures r.Some? && hs != [] ==> Dicts(shown).Some? && r.value == Grid(Dicts(shown).value, hs)
  {
    if hs == [] then Some(seq(|shown|, i => []))
    else match Dicts(shown)
      case None => None
      case Some(recs) => Some(Grid(recs, hs))
  }

  lemma ShownPlain(hs: seq<string>, shown: seq<Value>)
    requires ShownCells(hs, shown).Some?
    ensures PlainRows(ShownCells(hs, shown).value)
  {
    if hs != [] {
      GridPlain(Dicts(shown).value, hs);
    }
  }

  /** `_format_table`. The headers are the keys of the first record; the
      first `maxRows` records are shown. `None` stands for the exception the
      source raises when the first record is not a dictionary, or when there
      are headers and one of the records shown is not a dictionary. */
  function FormatTable(records: seq<Value>, maxRows: nat): Option<string>
  {
    if records == [] then Some("")
    else if !records[0].VDict? then None
    else
      var hs := Assoc.Keys(records[0].entries);
      match ShownCells(hs, records[..Min(|records|, maxRows)])
      case None => None
      case Some(rows) => Some(TableText(hs, rows, |records|, maxRows))
  }

  // Token view of the table.

  predicate NoOpen(cs: seq<string>)
  {
    forall i :: 0 <= i < |cs| ==> '<' !in cs[i]
  }

  predicate PlainRows(rows: seq<seq<string>>)
  {
    forall r :: 0 <= r < |rows| ==> NoOpen(rows[r])
  }

  lemma GridPlain(recs: seq<Record>, hs: seq<string>)
    ensures PlainRows(Grid(recs, hs))
  {
    var g := Grid(recs, hs);
    forall r, c | 0 <= r < |recs| && 0 <= c < |hs| ensures '<' !in g[r][c] {
      assert NoMarkup(Cell(recs[r], hs[c]));
    }
  }

  function RowToks(cs: seq<string>): seq<Token>
  {
    [Tag("<tr>")] + (Elements("<td>", cs, "</td>") + [Tag("</tr>")])
  }

  function RowsToks(rows: seq<seq<string>>): seq<Token>
  {
    if rows == [] then [] else RowToks(rows[0]) + RowsToks(rows[1..])
  }

  lemma RowShape(cs: seq<string>)
    requires NoOpen(cs)
    ensures WellFormed(RowToks(cs)) && TagBounded(RowToks(cs))
    ensures Serialize(RowToks(cs)) == RowText(cs)
  {
    LiteralTags();
    var el := Elements("<td>", cs, "</td>");
    var tl := [Tag("</tr>")];
    ElementsFacts("<td>", cs, "</td>");
    TagFacts("<tr>");
    TagFacts("</tr>");
    Glue(el, tl);
    Glue([Tag("<tr>")], el + tl);
  }

  lemma RowCount(cs: seq<string>)
    requires NoOpen(cs)
    ensures CountTag(RowToks(cs), "<tr>") == 1
  {
    var el := Elements("<td>", cs, "</td>");
    var tl := [Tag("</tr>")];
    LiteralTags();
    ElementsLacks("<td>", cs, "</td>", "<tr>");
    LacksCount(el, "<tr>");
    CountTagAppend(el, tl, "<tr>");
    CountTagAppend([Tag("<tr>")], el + tl, "<tr>");
  }

  lemma CellEntries(cs: seq<string>)
    requires NoOpen(cs)
    ensures Entries(Elements("<td>", cs, "</td>"), "<td>") == cs
    ensures EndsOff(Elements("<td>", cs, "</td>"), "<td>")
  {
    LiteralTags();
    ElementsFacts("<td>", cs, "</td>");
  }

  lemma RowEntries(cs: seq<string>)
    requires NoOpen(cs)
    ensures Entries(RowToks(cs), "<td>") == cs
  {
    var el := Elements("<td>", cs, "</td>");
    var tl := [Tag("</tr>")];
    CellEntries(cs);
    GlueReads(el, tl, "<td>");
    GlueReads([Tag("<tr>")], el + tl, "<td>");
  }

  lemma RowLacks(cs: seq<string>, name: string)
    requires NoOpen(cs)
    requires name != "<tr>" && name != "</tr>" && name != "<td>" && name != "</td>"
    ensures Lacks(RowToks(cs), name)
  {
    LiteralTags();
    var el := Elements("<td>", cs, "</td>");
    ElementsLacks("<td>", cs, "</td>", name);
    LacksTag("<tr>", name);
    LacksTag("</tr>", name);
    LacksAppend(el, [Tag("</tr>")], name);
    LacksAppend([Tag("<tr>")], el + [Tag("</tr>")], name);
  }

  lemma PlainRest(rows: seq<seq<string>>)
    requires rows != [] && PlainRows(rows)
    ensures NoOpen(rows[0]) && PlainRows(rows[1..])
  {
    assert forall r :: 0 <= r < |rows[1..]| ==> rows[1..][r] == rows[r + 1];
  }

  lemma {:induction false} RowsShape(rows: seq<seq<string>>)
    requires PlainRows(rows)
    ensures WellFormed(RowsToks(rows)) && TagBounded(RowsToks(rows))
    ensures Serialize(RowsToks(rows)) == RowsText(rows)
  {
    if rows != [] {
      PlainRest(rows);
      RowShape(rows[0]);
      RowsShape(rows[1..]);
      Glue(RowToks(rows[0]), RowsToks(rows[1..]));
    }
  }

  lemma {:induction false} RowsReads(rows: seq<seq<string>>)
    requires PlainRows(rows)
    ensures CountTag(RowsToks(rows), "<tr>") == |rows|
    ensures Entries(RowsToks(rows), "<td>") == Flatten(rows)
    ensures EndsOff(RowsToks(rows), "<td>")
  {
    if rows != [] {
      var row, rest := RowToks(rows[0]), RowsToks(rows[1..]);
      PlainRest(rows);
      RowCount(rows[0]);
      RowEntries(rows[0]);
      RowsReads(rows[1..]);
      GlueReads(row, rest, "<td>");
      CountTagAppend(row, rest, "<tr>");
      var all := row + rest;
      assert all[|all| - 1] == if rest == [] then row[|row| - 1] else rest[|rest| - 1];
    }
  }

  lemma {:induction false} RowsLacks(rows: seq<seq<string>>, name: string)
    requires PlainRows(rows)
    requires name != "<tr>" && name != "</tr>" && name != "<td>" && name != "</td>"
    ensures Lacks(RowsToks(rows), name)
  {
    if rows != [] {
      PlainRest(rows);
      RowLacks(rows[0], name);
      RowsLacks(rows[1..], name);
      LacksAppend(RowToks(rows[0]), RowsToks(rows[1..]), name);
    }
  }

  function HeaderToks(hs: seq<string>): seq<Token>
  {
    Elements("<th>", EscapedHeaders(hs), "</th>")
  }

  lemma HeadersNoOpen(hs: seq<string>)
    ensures NoOpen(EscapedHeaders(hs))
  {
    forall i | 0 <= i < |hs| ensures '<' !in EscapedHeaders(hs)[i] {
      assert NoMarkup(EscapeHtml(hs[i]));
    }
  }

  lemma HeaderFacts(hs: seq<string>)
    ensures WellFormed(HeaderToks(hs)) && TagBounded(HeaderToks(hs))
    ensures Serialize(HeaderToks(hs)) == ElementsText("<th>", EscapedHeaders(hs), "</th>")
    ensures Entries(HeaderToks(hs), "<th>") == EscapedHeaders(hs)
    ensures EndsOff(HeaderToks(hs), "<th>")
  {
    LiteralTags();
    HeadersNoOpen(hs);
    ElementsFacts("<th>", EscapedHeaders(hs), "</th>");
  }

  lemma HeaderLacks(hs: seq<string>, name: string)
    requires name != "<th>" && name != "</th>"
    ensures Lacks(HeaderToks(hs), name)
  {
    LiteralTags();
    HeadersNoOpen(hs);
    ElementsLacks("<th>", EscapedHeaders(hs), "</th>", name);
  }

  function TableParts(hs: seq<string>, rows: seq<seq<string>>, total: nat, maxRows: nat): seq<seq<Token>>
  {
    [SectionHead("Detailed Records:"), [Tag(TableOpen), Tag("<thead>"), Tag("<tr>")], HeaderToks(hs),
     [Tag("</tr>"), Tag("</thead>"), Tag("<tbody>")], RowsToks(rows), [Tag("</tbody>"), Tag("</table>")],
     NoticeToks(total > maxRows, maxRows, total, "records"), [Tag(DivClose)]]
  }

  lemma TableTagsBounded()
    ensures WellFormed([Tag(TableOpen), Tag("<thead>"), Tag("<tr>")])
         && TagBounded([Tag(TableOpen), Tag("<thead>"), Tag("<tr>")])
    ensures WellFormed([Tag("</tr>"), Tag("</thead>"), Tag("<tbody>")])
         && TagBounded([Tag("</tr>"), Tag("</thead>"), Tag("<tbody>")])
    ensures WellFormed([Tag("</tbody>"), Tag("</table>")]) && TagBounded([Tag("</tbody>"), Tag("</table>")])
    ensures WellFormed([Tag(DivClose)]) && TagBounded([Tag(DivClose)])
  {
    LiteralTags();
    TagTriple(TableOpen, "<thead>", "<tr>");
    TagTriple("</tr>", "</thead>", "<tbody>");
    TagPair("</tbody>", "</table>");
    TagFacts(DivClose);
  }

  lemma TableTagsText()
    ensures Serialize([Tag(TableOpen), Tag("<thead>"), Tag("<tr>")]) == TableOpen + "<thead>" + "<tr>"
    ensures Serialize([Tag("</tr>"), Tag("</thead>"), Tag("<tbody>")]) == "</tr>" + "</thead>" + "<tbody>"
    ensures Serialize([Tag("</tbody>"), Tag("</table>")]) == "</tbody>" + "</table>"
    ensures Serialize([Tag(DivClose)]) == DivClose
  {
    LiteralTags();
    TagTriple(TableOpen, "<thead>", "<tr>");
    TagTriple("</tr>", "</thead>", "<tbody>");
    TagPair("</tbody>", "</table>");
    TagFacts(DivClose);
  }

  lemma HeaderBounded(hs: seq<string>)
    ensures WellFormed(HeaderToks(hs)) && TagBounded(HeaderToks(hs))
  {
    HeaderFacts(hs);
  }

  lemma RowsBounded(rows: seq<seq<string>>)
    requires PlainRows(rows)
    ensures WellFormed(RowsToks(rows)) && TagBounded(RowsToks(rows))
  {
    RowsShape(rows);
  }

  lemma TablePartsBounded(hs: seq<string>, rows: seq<seq<string>>, total: nat, maxRows: nat)
    requires PlainRows(rows)
    ensures forall i :: 0 <= i < |TableParts(hs, rows, total, maxRows)| ==>
      WellFormed(TableParts(hs, rows, total, maxRows)[i]) && TagBounded(TableParts(hs, rows, total, maxRows)[i])
  {
    HeadBounded("Detailed Records:");
    TableTagsBounded();
    HeaderBounded(hs);
    RowsBounded(rows);
    NoticeBounded(total > maxRows, maxRows, total, "records");
  }

  lemma TableReassoc(so: string, to: string, t: string, dc: string, tb: string, th: string, tr: string,
                     hd: string, etr: string, eth: string, tbo: string, rows: string, etb: string,
                     et: string, n: string)
    ensures so + to + t + dc + tb + th + tr + hd + etr + eth + tbo + rows + etb + et + n + dc
         == (so + to + t + dc) + ((tb + th + tr) + (hd + ((etr + eth + tbo) + (rows + ((etb + et) + (n + dc))))))
  {
  }

  lemma TableTextNested(hs: seq<string>, rows: seq<seq<string>>, total: nat, maxRows: nat)
    ensures TableText(hs, rows, total, maxRows)
         == (SectionOpen + TitleOpen + "Detailed Records:" + DivClose)
          + ((TableOpen + "<thead>" + "<tr>")
          + (ElementsText("<th>", EscapedHeaders(hs), "</th>")
          + (("</tr>" + "</thead>" + "<tbody>")
          + (RowsText(rows)
          + (("</tbody>" + "</table>")
          + (TableNoticeText(total, maxRows) + DivClose))))))
  {
    TableReassoc(SectionOpen, TitleOpen, "Detailed Records:", DivClose, TableOpen, "<thead>", "<tr>",
      ElementsText("<th>", EscapedHeaders(hs), "</th>"), "</tr>", "</thead>", "<tbody>", RowsText(rows),
      "</tbody>", "</table>", TableNoticeText(total, maxRows));
  }

  lemma TableNoticeSer(total: nat, maxRows: nat)
    ensures Serialize(NoticeToks(total > maxRows, maxRows, total, "records")) == TableNoticeText(total, maxRows)
  {
    NoticeFacts(total > maxRows, maxRows, total, "records");
  }

  lemma HeaderText(hs: seq<string>)
    ensures Serialize(HeaderToks(hs)) == ElementsText("<th>", EscapedHeaders(hs), "</th>")
  {
    HeaderFacts(hs);
  }

  lemma RowsSer(rows: seq<seq<string>>)
    requires PlainRows(rows)
    ensures Serialize(RowsToks(rows)) == RowsText(rows)
  {
    RowsShape(rows);
  }

  lemma TableSerializeAll(hs: seq<string>, rows: seq<seq<string>>, total: nat, maxRows: nat)
    requires PlainRows(rows)
    ensures SerializeAll(TableParts(hs, rows, total, maxRows)) == TableText(hs, rows, total, maxRows)
  {
    SerializeAll8(SectionHead("Detailed Records:"), [Tag(TableOpen), Tag("<thead>"), Tag("<tr>")], HeaderToks(hs),
      [Tag("</tr>"), Tag("</thead>"), Tag("<tbody>")], RowsToks(rows), [Tag("</tbody>"), Tag("</table>")],
      NoticeToks(total > maxRows, maxRows, total, "records"), [Tag(DivClose)]);
    HeadText("Detailed Records:");
    TableTagsText();
    HeaderText(hs);
    RowsSer(rows);
    TableNoticeSer(total, maxRows);
    TableTextNested(hs, rows, total, maxRows);
  }

  lemma TableShape(hs: seq<string>, rows: seq<seq<string>>, total: nat, maxRows: nat)
    requires PlainRows(rows)
    ensures WellFormed(Join(TableParts(hs, rows, total, maxRows)))
    ensures Serialize(Join(TableParts(hs, rows, total, maxRows))) == TableText(hs, rows, total, maxRows)
  {
    TablePartsBounded(hs, rows, total, maxRows);
    JoinShape(TableParts(hs, rows, total, maxRows));
    TableSerializeAll(hs, rows, total, maxRows);
  }

  lemma TableHeaders(hs: seq<string>, rows: seq<seq<string>>, total: nat, maxRows: nat)
    requires PlainRows(rows)
    ensures Entries(Join(TableParts(hs, rows, total, maxRows)), "<th>") == EscapedHeaders(hs)
  {
    SectionHeadLacks("Detailed Records:", "<th>");
    LacksTriple(TableOpen, "<thead>", "<tr>", "<th>");
    HeaderFacts(hs);
    LacksTriple("</tr>", "</thead>", "<tbody>", "<th>");
    RowsLacks(rows, "<th>");
    LacksPair("</tbody>", "</table>", "<th>");
    NoticeLacks(total > maxRows, maxRows, total, "records", "<th>");
    LacksTag(DivClose, "<th>");
    Only8(SectionHead("Detailed Records:"), [Tag(TableOpen), Tag("<thead>"), Tag("<tr>")], HeaderToks(hs),
      [Tag("</tr>"), Tag("</thead>"), Tag("<tbody>")], RowsToks(rows), [Tag("</tbody>"), Tag("</table>")],
      NoticeToks(total > maxRows, maxRows, total, "records"), [Tag(DivClose)], 2, "<th>");
  }

  lemma TableCells(hs: seq<string>, rows: seq<seq<string>>, total: nat, maxRows: nat)
    requires PlainRows(rows)
    ensures Entries(Join(TableParts(hs, rows, total, maxRows)), "<td>") == Flatten(rows)
  {
    SectionHeadLacks("Detailed Records:", "<td>");
    LacksTriple(TableOpen, "<thead>", "<tr>", "<td>");
    HeaderLacks(hs, "<td>");
    LacksTriple("</tr>", "</thead>", "<tbody>", "<td>");
    RowsReads(rows);
    LacksPair("</tbody>", "</table>", "<td>");
    NoticeLacks(total > maxRows, maxRows, total, "records", "<td>");
    LacksTag(DivClose, "<td>");
    Only8(SectionHead("Detailed Records:"), [Tag(TableOpen), Tag("<thead>"), Tag("<tr>")], HeaderToks(hs),
      [Tag("</tr>"), Tag("</thead>"), Tag("<tbody>")], RowsToks(rows), [Tag("</tbody>"), Tag("</table>")],
      NoticeToks(total > maxRows, maxRows, total, "records"), [Tag(DivClose)], 4, "<td>");
  }

  lemma TableTitle(hs: seq<string>, rows: seq<seq<string>>, total: nat, maxRows: nat)
    requires PlainRows(rows)
    ensures Entries(Join(TableParts(hs, rows, total, maxRows)), TitleOpen) == ["Detailed Records:"]
  {
    SectionHeadFacts("Detailed Records:");
    LacksTriple(TableOpen, "<thead>", "<tr>", TitleOpen);
    HeaderLacks(hs, TitleOpen);
    LacksTriple("</tr>", "</thead>", "<tbody>", TitleOpen);
    RowsLacks(rows, TitleOpen);
    LacksPair("</tbody>", "</table>", TitleOpen);
    NoticeLacks(total > maxRows, maxRows, total, "records", TitleOpen);
    LacksTag(DivClose, TitleOpen);
    Only8(SectionHead("Detailed Records:"), [Tag(TableOpen), Tag("<thead>"), Tag("<tr>")], HeaderToks(hs),
      [Tag("</tr>"), Tag("</thead>"), Tag("<tbody>")], RowsToks(rows), [Tag("</tbody>"), Tag("</table>")],
      NoticeToks(total > maxRows, maxRows, total, "records"), [Tag(DivClose)], 0, TitleOpen);
  }

  lemma TableNotice(hs: seq<string>, rows: seq<seq<string>>, total: nat, maxRows: nat)
    requires PlainRows(rows)
    ensures Entries(Join(TableParts(hs, rows, total, maxRows)), NoticeOpen)
         == if total > maxRows then [Notice(maxRows, total, "records")] else []
  {
    SectionHeadLacks("Detailed Records:", NoticeOpen);
    LacksTriple(TableOpen, "<thead>", "<tr>", NoticeOpen);
    HeaderLacks(hs, NoticeOpen);
    LacksTriple("</tr>", "</thead>", "<tbody>", NoticeOpen);
    RowsLacks(rows, NoticeOpen);
    LacksPair("</tbody>", "</table>", NoticeOpen);
    NoticeFacts(total > maxRows, maxRows, total, "records");
    LacksTag(DivClose, NoticeOpen);
    Only8(SectionHead("Detailed Records:"), [Tag(TableOpen), Tag("<thead>"), Tag("<tr>")], HeaderToks(hs),
      [Tag("</tr>"), Tag("</thead>"), Tag("<tbody>")], RowsToks(rows), [Tag("</tbody>"), Tag("</table>")],
      NoticeToks(total > maxRows, maxRows, total, "records"), [Tag(DivClose)], 6, NoticeOpen);
  }

  lemma HeadRowCount()
    ensures CountTag(SectionHead("Detailed Records:"), "<tr>") == 0
  {
    SectionHeadLacks("Detailed Records:", "<tr>");
    LacksCount(SectionHead("Detailed Records:"), "<tr>");
  }

  lemma HeaderRowCount(hs: seq<string>)
    ensures CountTag(HeaderToks(hs), "<tr>") == 0
  {
    HeaderLacks(hs, "<tr>");
    LacksCount(HeaderToks(hs), "<tr>");
  }

  lemma NoticeRowCount(total: nat, maxRows: nat)
    ensures CountTag(NoticeToks(total > maxRows, maxRows, total, "records"), "<tr>") == 0
  {
    NoticeLacks(total > maxRows, maxRows, total, "records", "<tr>");
    LacksCount(NoticeToks(total > maxRows, maxRows, total, "records"), "<tr>");
  }

  lemma TableTagCounts()
    ensures CountTag([Tag(TableOpen), Tag("<thead>"), Tag("<tr>")], "<tr>") == 1
    ensures CountTag([Tag("</tr>"), Tag("</thead>"), Tag("<tbody>")], "<tr>") == 0
    ensures CountTag([Tag("</tbody>"), Tag("</table>")], "<tr>") == 0
    ensures CountTag([Tag(DivClose)], "<tr>") == 0
  {
    LacksTriple("</tr>", "</thead>", "<tbody>", "<tr>");
    LacksPair("</tbody>", "</table>", "<tr>");
    LacksTag(DivClose, "<tr>");
    LacksCount([Tag("</tr>"), Tag("</thead>"), Tag("<tbody>")], "<tr>");
    LacksCount([Tag("</tbody>"), Tag("</table>")], "<tr>");
    LacksCount([Tag(DivClose)], "<tr>");
    CountLastOfThree(TableOpen, "<thead>", "<tr>");
  }

  lemma TableRowCount(hs: seq<string>, rows: seq<seq<string>>, total: nat, maxRows: nat)
    requires PlainRows(rows)
    ensures CountTag(Join(TableParts(hs, rows, total, maxRows)), "<tr>") == 1 + |rows|
  {
    JoinCount(TableParts(hs, rows, total, maxRows), "<tr>");
    CountAll8(SectionHead("Detailed Records:"), [Tag(TableOpen), Tag("<thead>"), Tag("<tr>")], HeaderToks(hs),
      [Tag("</tr>"), Tag("</thead>"), Tag("<tbody>")], RowsToks(rows), [Tag("</tbody>"), Tag("</table>")],
      NoticeToks(total > maxRows, maxRows, total, "records"), [Tag(DivClose)], "<tr>");
    HeadRowCount();
    HeaderRowCount(hs);
    RowsReads(rows);
    NoticeRowCount(total, maxRows);
    TableTagCounts();
  }

  /** What the tokenizer reads back from the table text for given headers
      and escaped rows. */
  lemma TableTextReads(hs: seq<string>, rows: seq<seq<string>>, total: nat, maxRows: nat)
    requires PlainRows(rows)
    ensures var ts := Tokenize(TableText(hs, rows, total, maxRows));
      && Entries(ts, "<th>") == EscapedHeaders(hs)
      && CountTag(ts, "<tr>") == 1 + |rows|
      && Entries(ts, "<td>") == Flatten(rows)
      && Entries(ts, TitleOpen) == ["Detailed Records:"]
      && Entries(ts, NoticeOpen) == if total > maxRows then [Notice(maxRows, total, "records")] else []
  {
    TableShape(hs, rows, total, maxRows);
    TableHeaders(hs, rows, total, maxRows);
    TableRowCount(hs, rows, total, maxRows);
    TableCells(hs, rows, total, maxRows);
    TableTitle(hs, rows, total, maxRows);
    TableNotice(hs, rows, total, maxRows);
    TokenizeSerialize(Join(TableParts(hs, rows, total, maxRows)));
  }

  /** What `_format_table` writes: nothing for no records; an error when the
      first record is not a dictionary, or when it has keys and one of the
      records shown is not a dictionary; otherwise a table whose header
      cells are the first record's keys, escaped, with one header row and
      one row per record shown, whose body cells are the records' cells row
      by row (none when there are no headers), under the title "Detailed
      Records:", and with the notice exactly when records were left out. */
  lemma TableRendering(records: seq<Value>, maxRows: nat)
    ensures FormatTable(records, maxRows).None? <==>
      records != [] && (!records[0].VDict? || (Assoc.Keys(records[0].entries) != [] &&
        exists i :: 0 <= i < Min(|records|, maxRows) && !records[i].VDict?))
    ensures records == [] ==> FormatTable(records, maxRows) == Some("")
    ensures records != [] && FormatTable(records, maxRows).Some? ==>
      var hs := Assoc.Keys(records[0].entries);
      var shown := records[..Min(|records|, maxRows)];
      var ts := Tokenize(FormatTable(records, maxRows).value);
      && Entries(ts, "<th>") == EscapedHeaders(hs)
      && CountTag(ts, "<tr>") == 1 + Min(|records|, maxRows)
      && (hs == [] ==> Entries(ts, "<td>") == [])
      && (hs != [] ==> Dicts(shown).Some? && Entries(ts, "<td>") == Flatten(Grid(Dicts(shown).value, hs)))
      && Entries(ts, TitleOpen) == ["Detailed Records:"]
      && Entries(ts, NoticeOpen) == if |records| > maxRows then [Notice(maxRows, |records|, "records")] else []
  {
    TableFailure(records, maxRows);
    if records != [] && FormatTable(records, maxRows).Some? {
      TableContent(records, maxRows);
    }
  }

  lemma TableFailure(records: seq<Value>, maxRows: nat)
    ensures FormatTable(records, maxRows).None? <==>
      records != [] && (!records[0].VDict? || (Assoc.Keys(records[0].entries) != [] &&
        exists i :: 0 <= i < Min(|records|, maxRows) && !records[i].VDict?))
  {
    if records != [] && records[0].VDict? {
      var shown := records[..Min(|records|, maxRows)];
      assert forall i :: 0 <= i < |shown| ==> shown[i] == records[i];
    }
  }

  lemma TableContent(records: seq<Value>, maxRows: nat)
    requires records != [] && FormatTable(records, maxRows).Some?
    ensures
      var hs := Assoc.Keys(records[0].entries);
      var shown := records[..Min(|records|, maxRows)];
      var ts := Tokenize(FormatTable(records, maxRows).value);
      && Entries(ts, "<th>") == EscapedHeaders(hs)
      && CountTag(ts, "<tr>") == 1 + Min(|records|, maxRows)
      && (hs == [] ==> Entries(ts, "<td>") == [])
      && (hs != [] ==> Dicts(shown).Some? && Entries(ts, "<td>") == Flatten(Grid(Dicts(shown).value, hs)))
      && Entries(ts, TitleOpen) == ["Detailed Records:"]
      && Entries(ts, NoticeOpen) == if |records| > maxRows then [Notice(maxRows, |records|, "records")] else []
  {
    var hs := Assoc.Keys(records[0].entries);
    var shown := records[..Min(|records|, maxRows)];
    var rows := ShownCells(hs, shown).value;
    ShownPlain(hs, shown);
    TableTextReads(hs, rows, |records|, maxRows);
    if hs == [] {
      FlattenLength(rows, 0);
      OffsetIsProduct(|rows|, 0);
    }
  }

  /** With an empty first record there are no headers, so a later record
      that is not a dictionary is never looked into: `[{}, 5]` gives a table
      with two empty rows. */
  lemma HeaderlessTable()
    ensures FormatTable([VDict([]), VInt(5)], 10).Some?
    ensures var ts := Tokenize(FormatTable([VDict([]), VInt(5)], 10).value);
      CountTag(ts, "<tr>") == 3 && Entries(ts, "<td>") == []
  {
    var records := [VDict([]), VInt(5)];
    assert Assoc.Keys(records[0].entries) == [];
    TableRendering(records, 10);
  }

  // ---- _format_summary ----

  /** One summary line, from the escaped key and the escaped value. */
  function ItemText(k: string, v: string): string
  {
    "<li>" + "<strong>" + k + ":" + "</strong>" + " " + v + "</li>"
  }

  function ItemsText(ps: seq<(string, string)>): string
  {
    if ps == [] then "" else ItemText(ps[0].0, ps[0].1) + ItemsText(ps[1..])
  }

  /** Each key and value of the summary, `str` and escaped. */
  function EscapedPairs(es: Record): (ps: seq<(string, string)>)
    ensures |ps| == |es|
    ensures forall i :: 0 <= i < |es| ==> ps[i] == (EscapeHtml(es[i].0), EscapeHtml(Str(es[i].1)))
  {
    seq(|es|, i requires 0 <= i < |es| => (EscapeHtml(es[i].0), EscapeHtml(Str(es[i].1))))
  }

  function SummaryText(es: Record): string
  {
    SectionOpen + TitleOpen + "Summary:" + DivClose + ListOpen + ItemsText(EscapedPairs(es)) + "</ul>" + DivClose
  }

  /** `_format_summary`: one line per key of the dictionary, in insertion
      order. `None` stands for the exception a value other than a dictionary
      raises. */
  function FormatSummary(summary: Value): Option<string>
  {
    if summary.VDict? then Some(SummaryText(summary.entries)) else None
  }

  // Token view of the summary.

  predicate PlainPairs(ps: seq<(string, string)>)
  {
    forall i :: 0 <= i < |ps| ==> '<' !in ps[i].0 && '<' !in ps[i].1
  }

  lemma PairsPlain(es: Record)
    ensures PlainPairs(EscapedPairs(es))
  {
    var ps := EscapedPairs(es);
    forall i | 0 <= i < |es| ensures '<' !in ps[i].0 && '<' !in ps[i].1 {
      assert NoMarkup(EscapeHtml(es[i].0));
      assert NoMarkup(EscapeHtml(Str(es[i].1)));
    }
  }

  function ItemToks(k: string, v: string): seq<Token>
  {
    Labelled("<li>", "<strong>", k + ":", "</strong>", " " + v, "</li>")
  }

  function ItemsToks(ps: seq<(string, string)>): seq<Token>
  {
    if ps == [] then [] else ItemToks(ps[0].0, ps[0].1) + ItemsToks(ps[1..])
  }

  lemma ItemReassoc(li: string, st: string, k: string, est: string, v: string, eli: string)
    ensures li + st + k + ":" + est + " " + v + eli == li + st + (k + ":") + est + (" " + v) + eli
  {
  }

  lemma ItemShape(k: string, v: string)
    requires '<' !in k && '<' !in v
    ensures WellFormed(ItemToks(k, v)) && TagBounded(ItemToks(k, v))
    ensures Serialize(ItemToks(k, v)) == ItemText(k, v)
  {
    LiteralTags();
    assert IsText(k + ":") && IsText(" " + v);
    LabelledShape("<li>", "<strong>", k + ":", "</strong>", " " + v, "</li>");
    ItemReassoc("<li>", "<strong>", k, "</strong>", v, "</li>");
  }

  lemma ItemReads(k: string, v: string)
    ensures CountTag(ItemToks(k, v), "<li>") == 1
    ensures Entries(ItemToks(k, v), "<strong>") == [k + ":"]
    ensures Entries(ItemToks(k, v), "</strong>") == [" " + v]
    ensures EndsOff(ItemToks(k, v), "<li>") && EndsOff(ItemToks(k, v), "<strong>")
    ensures EndsOff(ItemToks(k, v), "</strong>")
  {
    LabelledReads("<li>", "<strong>", k + ":", "</strong>", " " + v, "</li>");
  }

  lemma ItemLacks(k: string, v: string, name: string)
    requires name != "<li>" && name != "</li>" && name != "<strong>" && name != "</strong>"
    ensures Lacks(ItemToks(k, v), name)
  {
    LabelledLacks("<li>", "<strong>", k + ":", "</strong>", " " + v, "</li>", name);
  }

  lemma PlainPairsRest(ps: seq<(string, string)>)
    requires ps != [] && PlainPairs(ps)
    ensures '<' !in ps[0].0 && '<' !in ps[0].1 && PlainPairs(ps[1..])
  {
    assert forall i :: 0 <= i < |ps[1..]| ==> ps[1..][i] == ps[i + 1];
  }

  lemma {:induction false} ItemsShape(ps: seq<(string, string)>)
    requires PlainPairs(ps)
    ensures WellFormed(ItemsToks(ps)) && TagBounded(ItemsToks(ps))
    ensures Serialize(ItemsToks(ps)) == ItemsText(ps)
  {
    if ps != [] {
      PlainPairsRest(ps);
      ItemShape(ps[0].0, ps[0].1);
      ItemsShape(ps[1..]);
      Glue(ItemToks(ps[0].0, ps[0].1), ItemsToks(ps[1..]));
    }
  }

  /** The labels the summary shows: each key followed by a colon. */
  function Labels(ps: seq<(string, string)>): (ls: seq<string>)
    ensures |ls| == |ps|
    ensures forall i :: 0 <= i < |ps| ==> ls[i] == ps[i].0 + ":"
  {
    seq(|ps|, i requires 0 <= i < |ps| => ps[i].0 + ":")
  }

  /** The text after each label: a space and the value. */
  function Shown(ps: seq<(string, string)>): (vs: seq<string>)
    ensures |vs| == |ps|
    ensures forall i :: 0 <= i < |ps| ==> vs[i] == " " + ps[i].1
  {
    seq(|ps|, i requires 0 <= i < |ps| => " " + ps[i].1)
  }

  lemma ItemsReads(ps: seq<(string, string)>)
    requires PlainPairs(ps)
    ensures CountTag(ItemsToks(ps), "<li>") == |ps|
    ensures Entries(ItemsToks(ps), "<strong>") == Labels(ps)
    ensures Entries(ItemsToks(ps), "</strong>") == Shown(ps)
    ensures EndsOff(ItemsToks(ps), "<li>") && EndsOff(ItemsToks(ps), "<strong>") && EndsOff(ItemsToks(ps), "</strong>")
  {
    ItemsCount(ps);
    ItemsLabels(ps);
    ItemsShown(ps);
    ItemsEndOff(ps, "<li>");
    ItemsEndOff(ps, "<strong>");
    ItemsEndOff(ps, "</strong>");
  }

  lemma ItemsCons(ps: seq<(string, string)>)
    requires ps != []
    ensures ItemsToks(ps) == ItemToks(ps[0].0, ps[0].1) + ItemsToks(ps[1..])
  {
  }

  lemma {:induction false} ItemsCount(ps: seq<(string, string)>)
    ensures CountTag(ItemsToks(ps), "<li>") == |ps|
  {
    if ps != [] {
      var it, rest := ItemToks(ps[0].0, ps[0].1), ItemsToks(ps[1..]);
      ItemsCons(ps);
      ItemReads(ps[0].0, ps[0].1);
      ItemsCount(ps[1..]);
      CountTagAppend(it, rest, "<li>");
    }
  }

  lemma LabelsCons(ps: seq<(string, string)>)
    requires ps != []
    ensures Labels(ps) == [ps[0].0 + ":"] + Labels(ps[1..])
  {
  }

  lemma ShownCons(ps: seq<(string, string)>)
    requires ps != []
    ensures Shown(ps) == [" " + ps[0].1] + Shown(ps[1..])
  {
  }

  lemma {:induction false} ItemsLabels(ps: seq<(string, string)>)
    ensures Entries(ItemsToks(ps), "<strong>") == Labels(ps)
  {
    if ps != [] {
      var it, rest := ItemToks(ps[0].0, ps[0].1), ItemsToks(ps[1..]);
      ItemsCons(ps);
      ItemReads(ps[0].0, ps[0].1);
      ItemsLabels(ps[1..]);
      EntriesAppend(it, rest, "<strong>");
      LabelsCons(ps);
    }
  }

  lemma {:induction false} ItemsShown(ps: seq<(string, string)>)
    ensures Entries(ItemsToks(ps), "</strong>") == Shown(ps)
  {
    if ps != [] {
      var it, rest := ItemToks(ps[0].0, ps[0].1), ItemsToks(ps[1..]);
      ItemsCons(ps);
      ItemReads(ps[0].0, ps[0].1);
      ItemsShown(ps[1..]);
      EntriesAppend(it, rest, "</strong>");
      ShownCons(ps);
    }
  }

  lemma {:induction false} ItemsEndOff(ps: seq<(string, string)>, name: string)
    requires name == "<li>" || name == "<strong>" || name == "</strong>"
    ensures EndsOff(ItemsToks(ps), name)
  {
    if ps != [] {
      ItemsCons(ps);
      ItemReads(ps[0].0, ps[0].1);
      ItemsEndOff(ps[1..], name);
      EndsOffAppend(ItemToks(ps[0].0, ps[0].1), ItemsToks(ps[1..]), name);
    }
  }

  lemma {:induction false} ItemsLacks(ps: seq<(string, string)>, name: string)
    requires name != "<li>" && name != "</li>" && name != "<strong>" && name != "</strong>"
    ensures Lacks(ItemsToks(ps), name)
  {
    if ps != [] {
      ItemLacks(ps[0].0, ps[0].1, name);
      ItemsLacks(ps[1..], name);
      LacksAppend(ItemToks(ps[0].0, ps[0].1), ItemsToks(ps[1..]), name);
    }
  }

  function SummaryParts(ps: seq<(string, string)>): seq<seq<Token>>
  {
    [SectionHead("Summary:"), [Tag(ListOpen)], ItemsToks(ps), [Tag("</ul>"), Tag(DivClose)]]
  }

  lemma SummaryTags()
    ensures WellFormed([Tag(ListOpen)]) && TagBounded([Tag(ListOpen)]) && Serialize([Tag(ListOpen)]) == ListOpen
    ensures WellFormed([Tag("</ul>"), Tag(DivClose)]) && TagBounded([Tag("</ul>"), Tag(DivClose)])
    ensures Serialize([Tag("</ul>"), Tag(DivClose)]) == "</ul>" + DivClose
  {
    LiteralTags();
    TagFacts(ListOpen);
    TagPair("</ul>", DivClose);
  }

  lemma ItemsBounded(ps: seq<(string, string)>)
    requires PlainPairs(ps)
    ensures WellFormed(ItemsToks(ps)) && TagBounded(ItemsToks(ps))
  {
    ItemsShape(ps);
  }

  lemma SummaryPartsBounded(ps: seq<(string, string)>)
    requires PlainPairs(ps)
    ensures forall i :: 0 <= i < |SummaryParts(ps)| ==>
      WellFormed(SummaryParts(ps)[i]) && TagBounded(SummaryParts(ps)[i])
  {
    HeadBounded("Summary:");
    SummaryTags();
    ItemsBounded(ps);
  }

  lemma SummaryReassoc(so: string, to: string, t: string, dc: string, lo: string, items: string, ul: string)
    ensures so + to + t + dc + lo + items + ul + dc == (so + to + t + dc) + (lo + (items + (ul + dc)))
  {
  }

  lemma ItemsSer(ps: seq<(string, string)>)
    requires PlainPairs(ps)
    ensures Serialize(ItemsToks(ps)) == ItemsText(ps)
  {
    ItemsShape(ps);
  }

  lemma SummarySerializeAll(es: Record)
    ensures SerializeAll(SummaryParts(EscapedPairs(es))) == SummaryText(es)
  {
    var ps := EscapedPairs(es);
    PairsPlain(es);
    SerializeAll4(SectionHead("Summary:"), [Tag(ListOpen)], ItemsToks(ps), [Tag("</ul>"), Tag(DivClose)]);
    HeadText("Summary:");
    SummaryTags();
    ItemsSer(ps);
    SummaryReassoc(SectionOpen, TitleOpen, "Summary:", DivClose, ListOpen, ItemsText(ps), "</ul>");
  }

  lemma SummaryShape(es: Record)
    ensures WellFormed(Join(SummaryParts(EscapedPairs(es))))
    ensures Serialize(Join(SummaryParts(EscapedPairs(es)))) == SummaryText(es)
  {
    PairsPlain(es);
    SummaryPartsBounded(EscapedPairs(es));
    JoinShape(SummaryParts(EscapedPairs(es)));
    SummarySerializeAll(es);
  }

  lemma SummaryReads(ps: seq<(string, string)>)
    requires PlainPairs(ps)
    ensures CountTag(Join(SummaryParts(ps)), "<li>") == |ps|
    ensures Entries(Join(SummaryParts(ps)), "<strong>") == Labels(ps)
    ensures Entries(Join(SummaryParts(ps)), "</strong>") == Shown(ps)
  {
    ItemsReads(ps);
    SectionHeadLacks("Summary:", "<li>");
    SectionHeadLacks("Summary:", "<strong>");
    SectionHeadLacks("Summary:", "</strong>");
    LacksTag(ListOpen, "<li>");
    LacksTag(ListOpen, "<strong>");
    LacksTag(ListOpen, "</strong>");
    LacksPair("</ul>", DivClose, "<li>");
    LacksPair("</ul>", DivClose, "<strong>");
    LacksPair("</ul>", DivClose, "</strong>");
    Only4(SectionHead("Summary:"), [Tag(ListOpen)], ItemsToks(ps), [Tag("</ul>"), Tag(DivClose)], 2, "<li>");
    Only4(SectionHead("Summary:"), [Tag(ListOpen)], ItemsToks(ps), [Tag("</ul>"), Tag(DivClose)], 2, "<strong>");
    Only4(SectionHead("Summary:"), [Tag(ListOpen)], ItemsToks(ps), [Tag("</ul>"), Tag(DivClose)], 2, "</strong>");
  }

  lemma SummaryTitle(ps: seq<(string, string)>)
    ensures Entries(Join(SummaryParts(ps)), TitleOpen) == ["Summary:"]
  {
    SectionHeadFacts("Summary:");
    LacksTag(ListOpen, TitleOpen);
    ItemsLacks(ps, TitleOpen);
    LacksPair("</ul>", DivClose, TitleOpen);
    Only4(SectionHead("Summary:"), [Tag(ListOpen)], ItemsToks(ps), [Tag("</ul>"), Tag(DivClose)], 0, TitleOpen);
  }

  /** What `_format_summary` writes: an error unless the summary is a
      dictionary; otherwise one bullet per key, in insertion order, whose
      bold label is the escaped key with a colon and whose text is a space
      and the escaped value, under the title "Summary:". */
  lemma SummaryRendering(summary: Value)
    ensures FormatSummary(summary).Some? <==> summary.VDict?
    ensures summary.VDict? ==>
      var ps := EscapedPairs(summary.entries);
      var ts := Tokenize(FormatSummary(summary).value);
      && CountTag(ts, "<li>") == |summary.entries|
      && Entries(ts, "<strong>") == Labels(ps)
      && Entries(ts, "</strong>") == Shown(ps)
      && Entries(ts, TitleOpen) == ["Summary:"]
  {
    if summary.VDict? {
      var es := summary.entries;
      PairsPlain(es);
      SummaryShape(es);
      SummaryReads(EscapedPairs(es));
      SummaryTitle(EscapedPairs(es));
      TokenizeSerialize(Join(SummaryParts(EscapedPairs(es))));
    }
  }

  // ---- _format_extra_data ----

  /** `key in extra_data and extra_data[key]`: the value under `key` when it
      is there and truthy. */
  function Given(ed: Record, key: string): (r: Option<Value>)
    ensures r.Some? <==> Assoc.Get(ed, key).Some? && Truthy(Assoc.Get(ed, key).value)
    ensures r.Some? ==> Assoc.Get(ed, key) == Some(r.value)
  {
    match Assoc.Get(ed, key)
    case Some(v) => if Truthy(v) then Some(v) else None
    case None => None
  }

  /** The items `_format_list` takes `len` of, slices and iterates: a list's
      elements, or a string's characters; anything else raises. */
  function AsItems(v: Value): (r: Option<seq<Value>>)
    ensures r.Some? <==> v.VList? || v.VStr?
    ensures v.VList? ==> r == Some(v.items)
    ensures v.VStr? ==> r.Some? && |r.value| == |v.s| && forall i :: 0 <= i < |v.s| ==> r.value[i] == VStr([v.s[i]])
  {
    match v
    case VList(xs) => Some(xs)
    case VStr(s) => Some(seq(|s|, i requires 0 <= i < |s| => VStr([s[i]])))
    case _ => None
  }

  /** A list section of the box: nothing when the key is absent or falsy. */
  function ListSection(ed: Record, key: string, title: string): Option<string>
  {
    match Given(ed, key)
    case None => Some("")
    case Some(v) =>
      match AsItems(v)
      case None => None
      case Some(xs) => Some(FormatList(xs, title, MaxListItems))
  }

  /** The records section: only a list has the `records[0].keys()` the table
      starts from. */
  function RecordsSection(ed: Record): Option<string>
  {
    match Given(ed, "records")
    case None => Some("")
    case Some(v) => if v.VList? then FormatTable(v.items, MaxTableRows) else None
  }

  function SummarySection(ed: Record): Option<string>
  {
    match Given(ed, "summary")
    case None => Some("")
    case Some(v) => FormatSummary(v)
  }

  /** `_format_extra_data`: the box holding, in this order, the entity ids,
      the invalid values, the records table and the summary, each only when
      given; `None` when rendering one of them raises. */
  function FormatExtraData(ed: Record): Option<string>
  {
    var s1 := ListSection(ed, "entity_ids", EntityIdsTitle);
    var s2 := ListSection(ed, "invalid_values", InvalidValuesTitle);
    var s3 := RecordsSection(ed);
    var s4 := SummarySection(ed);
    if s1.Some? && s2.Some? && s3.Some? && s4.Some? then
      Some(ExtraOpen + s1.value + s2.value + s3.value + s4.value + DivClose)
    else None
  }

  // When each section renders.

  predicate ListFits(ed: Record, key: string)
  {
    Given(ed, key).Some? ==> Given(ed, key).value.VList? || Given(ed, key).value.VStr?
  }

  /** Records are a list whose first element is a dictionary and, when
      that dictionary has keys, every one shown is a dictionary too. */
  predicate RecordsFit(ed: Record)
  {
    Given(ed, "records").Some? ==>
      var v := Given(ed, "records").value;
      && v.VList? && v.items != [] && v.items[0].VDict?
      && (Assoc.Keys(v.items[0].entries) != [] ==>
            forall i :: 0 <= i < Min(|v.items|, MaxTableRows) ==> v.items[i].VDict?)
  }

  predicate SummaryFits(ed: Record)
  {
    Given(ed, "summary").Some? ==> Given(ed, "summary").value.VDict?
  }

  /** The section titles the box shows, in the order it shows them. */
  function PresentTitles(ed: Record): seq<string>
  {
    (if Given(ed, "entity_ids").Some? then [EntityIdsTitle + ":"] else [])
    + (if Given(ed, "invalid_values").Some? then [InvalidValuesTitle + ":"] else [])
    + (if Given(ed, "records").Some? then ["Detailed Records:"] else [])
    + (if Given(ed, "summary").Some? then ["Summary:"] else [])
  }

  // Token view of the box.

  /** `ts` is a fragment written as `text` whose section titles are `titles`. */
  predicate Renders(ts: seq<Token>, text: string, titles: seq<string>)
  {
    WellFormed(ts) && TagBounded(ts) && Serialize(ts) == text
    && Entries(ts, TitleOpen) == titles && EndsOff(ts, TitleOpen)
  }

  lemma ListRenders(items: seq<Value>, title: string)
    requires '<' !in title
    ensures Renders(Join(ListParts(items, title, MaxListItems)), FormatList(items, title, MaxListItems), [title + ":"])
  {
    var parts := ListParts(items, title, MaxListItems);
    ListPartsBounded(items, title, MaxListItems);
    JoinShape(parts);
    ListShape(items, title, MaxListItems);
    ListTitle(items, title, MaxListItems);
    JoinEndsOff(parts, TitleOpen);
  }

  lemma TableRenders(hs: seq<string>, rows: seq<seq<string>>, total: nat)
    requires PlainRows(rows)
    ensures Renders(Join(TableParts(hs, rows, total, MaxTableRows)), TableText(hs, rows, total, MaxTableRows),
                    ["Detailed Records:"])
  {
    var parts := TableParts(hs, rows, total, MaxTableRows);
    TablePartsBounded(hs, rows, total, MaxTableRows);
    JoinShape(parts);
    TableShape(hs, rows, total, MaxTableRows);
    TableTitle(hs, rows, total, MaxTableRows);
    JoinEndsOff(parts, TitleOpen);
  }

  lemma SummaryRenders(es: Record)
    ensures Renders(Join(SummaryParts(EscapedPairs(es))), SummaryText(es), ["Summary:"])
  {
    var parts := SummaryParts(EscapedPairs(es));
    PairsPlain(es);
    SummaryPartsBounded(EscapedPairs(es));
    JoinShape(parts);
    SummaryShape(es);
    SummaryTitle(EscapedPairs(es));
    JoinEndsOff(parts, TitleOpen);
  }

  /** Tokens of a list section. */
  function ListSectionToks(ed: Record, key: string, title: string): seq<Token>
  {
    match Given(ed, key)
    case None => []
    case Some(v) =>
      match AsItems(v)
      case None => []
      case Some(xs) => Join(ListParts(xs, title, MaxListItems))
  }

  lemma ListSectionRenders(ed: Record, key: string, title: string)
    requires '<' !in title && ListSection(ed, key, title).Some?
    ensures Renders(ListSectionToks(ed, key, title), ListSection(ed, key, title).value,
                    if Given(ed, key).Some? then [title + ":"] else [])
  {
    if Given(ed, key).Some? {
      ListRenders(AsItems(Given(ed, key).value).value, title);
    }
  }

  function RecordsSectionToks(ed: Record): seq<Token>
  {
    match Given(ed, "records")
    case None => []
    case Some(v) =>
      if v.VList? && v.items != [] && v.items[0].VDict? then
        var hs := Assoc.Keys(v.items[0].entries);
        match ShownCells(hs, v.items[..Min(|v.items|, MaxTableRows)])
        case Some(rows) => Join(TableParts(hs, rows, |v.items|, MaxTableRows))
        case None => []
      else []
  }

  lemma RecordsSectionRenders(ed: Record)
    requires RecordsSection(ed).Some?
    ensures Renders(RecordsSectionToks(ed), RecordsSection(ed).value,
                    if Given(ed, "records").Some? then ["Detailed Records:"] else [])
  {
    if Given(ed, "records").Some? {
      var xs := Given(ed, "records").value.items;
      var hs := Assoc.Keys(xs[0].entries);
      var shown := xs[..Min(|xs|, MaxTableRows)];
      ShownPlain(hs, shown);
      TableRenders(hs, ShownCells(hs, shown).value, |xs|);
    }
  }

  function SummarySectionToks(ed: Record): seq<Token>
  {
    match Given(ed, "summary")
    case None => []
    case Some(v) => if v.VDict? then Join(SummaryParts(EscapedPairs(v.entries))) else []
  }

  lemma SummarySectionRenders(ed: Record)
    requires SummarySection(ed).Some?
    ensures Renders(SummarySectionToks(ed), SummarySection(ed).value,
                    if Given(ed, "summary").Some? then ["Summary:"] else [])
  {
    if Given(ed, "summary").Some? {
      SummaryRenders(Given(ed, "summary").value.entries);
    }
  }

  lemma BoxReassoc(a: string, s1: string, s2: string, s3: string, s4: string, b: string)
    ensures a + (s1 + (s2 + (s3 + (s4 + b)))) == a + s1 + s2 + s3 + s4 + b
  {
  }

  function BoxToks(t1: seq<Token>, t2: seq<Token>, t3: seq<Token>, t4: seq<Token>): seq<Token>
  {
    Join([[Tag(ExtraOpen)], t1, t2, t3, t4, [Tag(DivClose)]])
  }

  lemma BoxShape(t1: seq<Token>, t2: seq<Token>, t3: seq<Token>, t4: seq<Token>)
    requires WellFormed(t1) && TagBounded(t1) && WellFormed(t2) && TagBounded(t2)
    requires WellFormed(t3) && TagBounded(t3) && WellFormed(t4) && TagBounded(t4)
    ensures WellFormed(BoxToks(t1, t2, t3, t4))
    ensures Serialize(BoxToks(t1, t2, t3, t4))
         == ExtraOpen + Serialize(t1) + Serialize(t2) + Serialize(t3) + Serialize(t4) + DivClose
  {
    var parts := [[Tag(ExtraOpen)], t1, t2, t3, t4, [Tag(DivClose)]];
    BoxEnds();
    JoinShape(parts);
    SerializeAll6([Tag(ExtraOpen)], t1, t2, t3, t4, [Tag(DivClose)]);
    BoxReassoc(ExtraOpen, Serialize(t1), Serialize(t2), Serialize(t3), Serialize(t4), DivClose);
  }

  lemma BoxEnds()
    ensures WellFormed([Tag(ExtraOpen)]) && TagBounded([Tag(ExtraOpen)]) && Serialize([Tag(ExtraOpen)]) == ExtraOpen
    ensures WellFormed([Tag(DivClose)]) && TagBounded([Tag(DivClose)]) && Serialize([Tag(DivClose)]) == DivClose
    ensures Entries([Tag(ExtraOpen)], TitleOpen) == [] && Entries([Tag(DivClose)], TitleOpen) == []
    ensures EndsOff([Tag(ExtraOpen)], TitleOpen) && EndsOff([Tag(DivClose)], TitleOpen)
  {
    LiteralTags();
    TagFacts(ExtraOpen);
    TagFacts(DivClose);
  }

  lemma TitlesReassoc(x: seq<string>, a: seq<string>, b: seq<string>, c: seq<string>, d: seq<string>, y: seq<string>)
    requires x == [] && y == []
    ensures x + (a + (b + (c + (d + y)))) == a + b + c + d
  {
  }

  lemma BoxEntries(t1: seq<Token>, t2: seq<Token>, t3: seq<Token>, t4: seq<Token>)
    requires EndsOff(t1, TitleOpen) && EndsOff(t2, TitleOpen) && EndsOff(t3, TitleOpen) && EndsOff(t4, TitleOpen)
    ensures Entries(BoxToks(t1, t2, t3, t4), TitleOpen)
         == Entries(t1, TitleOpen) + Entries(t2, TitleOpen) + Entries(t3, TitleOpen) + Entries(t4, TitleOpen)
  {
    BoxEnds();
    Entries6([Tag(ExtraOpen)], t1, t2, t3, t4, [Tag(DivClose)], TitleOpen);
    TitlesReassoc(Entries([Tag(ExtraOpen)], TitleOpen), Entries(t1, TitleOpen), Entries(t2, TitleOpen),
      Entries(t3, TitleOpen), Entries(t4, TitleOpen), Entries([Tag(DivClose)], TitleOpen));
  }

  /** The box around four sections shows their titles one after another. */
  lemma BoxTitles(t1: seq<Token>, t2: seq<Token>, t3: seq<Token>, t4: seq<Token>,
                  s1: string, s2: string, s3: string, s4: string,
                  n1: seq<string>, n2: seq<string>, n3: seq<string>, n4: seq<string>)
    requires Renders(t1, s1, n1) && Renders(t2, s2, n2) && Renders(t3, s3, n3) && Renders(t4, s4, n4)
    ensures Entries(Tokenize(ExtraOpen + s1 + s2 + s3 + s4 + DivClose), TitleOpen) == n1 + n2 + n3 + n4
  {
    BoxShape(t1, t2, t3, t4);
    BoxEntries(t1, t2, t3, t4);
    TokenizeSerialize(BoxToks(t1, t2, t3, t4));
  }

  /** What `_format_extra_data` writes: it fails exactly when a given section
      has the wrong shape, and otherwise shows the titles of the given
      sections, in the fixed order, leaving out those absent or empty. */
  lemma ExtraDataRendering(ed: Record)
    ensures FormatExtraData(ed).Some? <==>
      ListFits(ed, "entity_ids") && ListFits(ed, "invalid_values") && RecordsFit(ed) && SummaryFits(ed)
    ensures FormatExtraData(ed).Some? ==>
      Entries(Tokenize(FormatExtraData(ed).value), TitleOpen) == PresentTitles(ed)
  {
    ExtraDataFits(ed);
    if FormatExtraData(ed).Some? {
      ExtraDataTitles(ed);
    }
  }

  lemma ExtraDataTitles(ed: Record)
    requires FormatExtraData(ed).Some?
    ensures Entries(Tokenize(FormatExtraData(ed).value), TitleOpen) == PresentTitles(ed)
  {
    ExtraDataParts(ed);
    var s1, s2 := ListSection(ed, "entity_ids", EntityIdsTitle), ListSection(ed, "invalid_values", InvalidValuesTitle);
    var s3, s4 := RecordsSection(ed), SummarySection(ed);
    BoxTitles(ListSectionToks(ed, "entity_ids", EntityIdsTitle), ListSectionToks(ed, "invalid_values", InvalidValuesTitle),
      RecordsSectionToks(ed), SummarySectionToks(ed), s1.value, s2.value, s3.value, s4.value,
      if Given(ed, "entity_ids").Some? then [EntityIdsTitle + ":"] else [],
      if Given(ed, "invalid_values").Some? then [InvalidValuesTitle + ":"] else [],
      if Given(ed, "records").Some? then ["Detailed Records:"] else [],
      if Given(ed, "summary").Some? then ["Summary:"] else []);
  }

  /** Each section of a box that renders renders on its own. */
  lemma ExtraDataParts(ed: Record)
    requires FormatExtraData(ed).Some?
    ensures ListSection(ed, "entity_ids", EntityIdsTitle).Some? && ListSection(ed, "invalid_values", InvalidValuesTitle).Some?
    ensures RecordsSection(ed).Some? && SummarySection(ed).Some?
    ensures FormatExtraData(ed).value == ExtraOpen + ListSection(ed, "entity_ids", EntityIdsTitle).value
      + ListSection(ed, "invalid_values", InvalidValuesTitle).value + RecordsSection(ed).value
      + SummarySection(ed).value + DivClose
    ensures Renders(ListSectionToks(ed, "entity_ids", EntityIdsTitle), ListSection(ed, "entity_ids", EntityIdsTitle).value,
                    if Given(ed, "entity_ids").Some? then [EntityIdsTitle + ":"] else [])
    ensures Renders(ListSectionToks(ed, "invalid_values", InvalidValuesTitle),
                    ListSection(ed, "invalid_values", InvalidValuesTitle).value,
                    if Given(ed, "invalid_values").Some? then [InvalidValuesTitle + ":"] else [])
    ensures Renders(RecordsSectionToks(ed), RecordsSection(ed).value,
                    if Given(ed, "records").Some? then ["Detailed Records:"] else [])
    ensures Renders(SummarySectionToks(ed), SummarySection(ed).value,
                    if Given(ed, "summary").Some? then ["Summary:"] else [])
  {
    assert '<' !in EntityIdsTitle && '<' !in InvalidValuesTitle;
    ListSectionRenders(ed, "entity_ids", EntityIdsTitle);
    ListSectionRenders(ed, "invalid_values", InvalidValuesTitle);
    RecordsSectionRenders(ed);
    SummarySectionRenders(ed);
  }

  lemma ExtraDataFits(ed: Record)
    ensures FormatExtraData(ed).Some? <==>
      ListFits(ed, "entity_ids") && ListFits(ed, "invalid_values") && RecordsFit(ed) && SummaryFits(ed)
  {
    ListSectionFits(ed, "entity_ids", EntityIdsTitle);
    ListSectionFits(ed, "invalid_values", InvalidValuesTitle);
    RecordsSectionFits(ed);
    SummarySectionFits(ed);
  }

  lemma ListSectionFits(ed: Record, key: string, title: string)
    ensures ListSection(ed, key, title).Some? <==> ListFits(ed, key)
  {
  }

  lemma RecordsSectionFits(ed: Record)
    ensures RecordsSection(ed).Some? <==> RecordsFit(ed)
  {
    if Given(ed, "records").Some? && Given(ed, "records").value.VList? {
      TableFailure(Given(ed, "records").value.items, MaxTableRows);
    }
  }

  lemma SummarySectionFits(ed: Record)
    ensures SummarySection(ed).Some? <==> SummaryFits(ed)
  {
    if Given(ed, "summary").Some? {
      SummaryRendering(Given(ed, "summary").value);
    }
  }
}
