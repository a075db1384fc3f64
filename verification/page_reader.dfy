/**
  The pure decisions inside `extractData_CourseItems` (background.js): which
  category a block of the "What's New" listing holds, which rows become item
  summaries, and the CSS selector the engine later clicks to open an item.
  The DOM itself is abstracted: a block is its id and its rows, a row is its
  id and the text of its link, if it has one.
 */
module PageReader {
  import opened Options
  import opened Text
  import opened Store

  const AnnouncementKeyword: string := "::AN"
  const AssignmentKeyword: string := "::AS"

  /** A block id whose upper-cased form contains `::AN` holds announcements,
      otherwise one containing `::AS` holds assignments, anything else holds
      other items. */
  function Classify(blockId: string): (k: Kind)
    ensures k == Announcement <==> exists i :: OccursAt(Upper(blockId), AnnouncementKeyword, i)
    ensures k == Assignment <==>
              && (forall i :: !OccursAt(Upper(blockId), AnnouncementKeyword, i))
              && (exists i :: OccursAt(Upper(blockId), AssignmentKeyword, i))
  {
    var id := Upper(blockId);
    assert Contains(id, AnnouncementKeyword) <==> exists i :: OccursAt(id, AnnouncementKeyword, i);
    assert Contains(id, AssignmentKeyword) <==> exists i :: OccursAt(id, AssignmentKeyword, i);
    if Contains(id, AnnouncementKeyword) then
      assert exists i :: OccursAt(Upper(blockId), AnnouncementKeyword, i);
      Announcement
    else if Contains(id, AssignmentKeyword) then Assignment
    else Other
  }

  /** Upper-casing is idempotent, so the classification ignores letter case. */
  lemma ClassifyIgnoresCase(blockId: string)
    ensures Classify(Upper(blockId)) == Classify(blockId)
  {
    assert Upper(Upper(blockId)) == Upper(blockId);
  }

  /** `rowId.replace(/:/g, '\\:')`: every colon gets a backslash in front. */
  function EscapeColons(id: string): (e: string)
    ensures |e| >= |id|
    ensures e != [] ==> e[0] != ':'
    ensures forall i | 0 <= i < |e| && e[i] == ':' :: i > 0 && e[i - 1] == '\\'
    decreases |id|
  {
    if id == [] then []
    else
      var rest := EscapeColons(id[1..]);
      var head := if id[0] == ':' then "\\:" else [id[0]];
      assert forall i | |head| <= i < |head + rest| :: (head + rest)[i] == rest[i - |head|];
      head + rest
  }

  /** Reads an escaped id back: `\:` stands for a colon. */
  function UnescapeColons(e: string): string
    decreases |e|
  {
    if e == [] then []
    else if |e| >= 2 && e[0] == '\\' && e[1] == ':' then [':'] + UnescapeColons(e[2..])
    else [e[0]] + UnescapeColons(e[1..])
  }

  /** Escaping loses nothing: the row id can be read back from its escaped form. */
  lemma {:induction false} UnescapeEscape(id: string)
    ensures UnescapeColons(EscapeColons(id)) == id
    decreases |id|
  {
    if id != [] {
      var rest := EscapeColons(id[1..]);
      UnescapeEscape(id[1..]);
      if id[0] == ':' {
        assert EscapeColons(id) == "\\:" + rest;
        assert ("\\:" + rest)[2..] == rest;
      } else {
        assert EscapeColons(id) == [id[0]] + rest;
        assert ([id[0]] + rest)[1..] == rest;
      }
    }
  }

  const SelectorTail: string := " > span > a"

  /** The selector of the link inside the row: `#<escaped id> > span > a`,
      where only colons are escaped. */
  function ClickSelector(rowId: string): string {
    "#" + EscapeColons(rowId) + SelectorTail
  }

  /** The row id read back from a string of the click selector's shape,
      undoing the colon escape; `None` for any other string. This inverts the
      selector's construction; it is not a CSS selector parser. */
  function RowIdOfSelector(sel: string): Option<string> {
    if |sel| >= 1 + |SelectorTail| && sel[0] == '#' && sel[|sel| - |SelectorTail|..] == SelectorTail
    then Some(UnescapeColons(sel[1..|sel| - |SelectorTail|]))
    else None
  }

  /** Building a click selector is reversible: the row id it was built
      from is read back from it. */
  lemma ClickSelectorRoundTrip(rowId: string)
    ensures RowIdOfSelector(ClickSelector(rowId)) == Some(rowId)
  {
    var e := EscapeColons(rowId);
    var sel := ClickSelector(rowId);
    assert sel[1..|sel| - |SelectorTail|] == e;
    assert sel[|sel| - |SelectorTail|..] == SelectorTail;
    UnescapeEscape(rowId);
  }

  /** Distinct row ids get distinct click selectors. */
  lemma ClickSelectorInjective(a: string, b: string)
    requires ClickSelector(a) == ClickSelector(b)
    ensures a == b
  {
    ClickSelectorRoundTrip(a);
    ClickSelectorRoundTrip(b);
  }

  /** The selector reads back to a non-empty row id. */
  predicate ReadsBackToRow(sel: string) {
    RowIdOfSelector(sel).Some? && RowIdOfSelector(sel).value != ""
  }

  datatype Row = Row(id: string, linkText: Option<string>)
  datatype Block = Block(id: string, rows: seq<Row>)

  /** What the course page reader reports for one listed item. */
  datatype ItemSummary = ItemSummary(title: string, kind: Kind, clickSelector: string)

  /** What every summary the reader reports satisfies: a trimmed title and a
      click selector that reads back to a non-empty row id. */
  predicate WellFormed(it: ItemSummary) {
    Trimmed(it.title) && ReadsBackToRow(it.clickSelector)
  }

  /** A row yields a summary only when it has both a link and a non-empty id. */
  predicate Listed(row: Row) {
    row.linkText.Some? && row.id != ""
  }

  /** The summary a row yields under its block's category: its trimmed link
      text and the selector of its link. Only listed rows are summarised. */
  function Summary(kind: Kind, row: Row): ItemSummary {
    ItemSummary(Trim(row.linkText.GetOr("")), kind, ClickSelector(row.id))
  }

  /** Every summary a listed row yields is well formed. */
  lemma SummaryWellFormed(kind: Kind, row: Row)
    requires Listed(row)
    ensures WellFormed(Summary(kind, row))
  {
    ClickSelectorRoundTrip(row.id);
  }

  /** The images under `f` of the elements `keep` accepts, in order. */
  function FilterMap<R, S>(xs: seq<R>, keep: R -> bool, f: R -> S): (ys: seq<S>)
    ensures |ys| <= |xs|
    decreases |xs|
  {
    if xs == [] then []
    else (if keep(xs[0]) then [f(xs[0])] else []) + FilterMap(xs[1..], keep, f)
  }

  lemma {:induction false} FilterMapHas<R, S>(xs: seq<R>, keep: R -> bool, f: R -> S, j: int)
    requires 0 <= j < |xs| && keep(xs[j])
    ensures f(xs[j]) in FilterMap(xs, keep, f)
    decreases |xs|
  {
    if j > 0 {
      FilterMapHas(xs[1..], keep, f, j - 1);
      assert xs[1..][j - 1] == xs[j];
    }
  }

  lemma {:induction false} FilterMapFrom<R, S>(xs: seq<R>, keep: R -> bool, f: R -> S, y: S) returns (j: int)
    requires y in FilterMap(xs, keep, f)
    ensures 0 <= j < |xs| && keep(xs[j]) && y == f(xs[j])
    decreases |xs|
  {
    var rest := FilterMap(xs[1..], keep, f);
    if keep(xs[0]) && y == f(xs[0]) {
      j := 0;
    } else {
      assert y in rest;
      var j' := FilterMapFrom(xs[1..], keep, f, y);
      j := j' + 1;
      assert xs[j] == xs[1..][j'];
    }
  }

  /** The filter-map distributes over concatenation, so it keeps the order
      of its input. */
  lemma {:induction false} FilterMapAppend<R, S>(xs: seq<R>, ys: seq<R>, keep: R -> bool, f: R -> S)
    ensures FilterMap(xs + ys, keep, f) == FilterMap(xs, keep, f) + FilterMap(ys, keep, f)
    decreases |xs|
  {
    if xs == [] {
      assert xs + ys == ys;
    } else {
      var head := if keep(xs[0]) then [f(xs[0])] else [];
      assert (xs + ys)[0] == xs[0];
      assert (xs + ys)[1..] == xs[1..] + ys;
      FilterMapAppend(xs[1..], ys, keep, f);
      var a, b := FilterMap(xs[1..], keep, f), FilterMap(ys, keep, f);
      assert head + (a + b) == (head + a) + b;
    }
  }

  lemma FilterMapOne<R, S>(x: R, keep: R -> bool, f: R -> S)
    ensures FilterMap([x], keep, f) == if keep(x) then [f(x)] else []
  {
    assert [x][1..] == [];
  }

  function Summarize(kind: Kind): Row -> ItemSummary {
    (row: Row) => Summary(kind, row)
  }

  /** The rows of one block the reader reports, summarised under the block's
      category, in row order. */
  function RowItems(kind: Kind, rows: seq<Row>): (items: seq<ItemSummary>)
    ensures |items| <= |rows|
  {
    FilterMap(rows, Listed, Summarize(kind))
  }

  /** Rows are reported in block order: the summaries of two runs of rows
      are those of the first run followed by those of the second. */
  lemma RowItemsAppend(kind: Kind, rows: seq<Row>, more: seq<Row>)
    ensures RowItems(kind, rows + more) == RowItems(kind, rows) + RowItems(kind, more)
  {
    FilterMapAppend(rows, more, Listed, Summarize(kind));
  }

  /** A single row gives its summary when it is listed, and nothing otherwise. */
  lemma RowItemsOne(kind: Kind, row: Row)
    ensures RowItems(kind, [row]) == if Listed(row) then [Summary(kind, row)] else []
  {
    FilterMapOne(row, Listed, Summarize(kind));
  }

  /** `extractData_CourseItems`: blocks in page order, rows in block order. */
  function ExtractCourseItems(blocks: seq<Block>): seq<ItemSummary>
    decreases |blocks|
  {
    if blocks == [] then []
    else RowItems(Classify(blocks[0].id), blocks[0].rows) + ExtractCourseItems(blocks[1..])
  }

  /** Blocks are reported in page order: the summaries of two runs of
      blocks are those of the first run followed by those of the second. */
  lemma {:induction false} ExtractCourseItemsAppend(blocks: seq<Block>, more: seq<Block>)
    ensures ExtractCourseItems(blocks + more) == ExtractCourseItems(blocks) + ExtractCourseItems(more)
    decreases |blocks|
  {
    if blocks == [] {
      assert blocks + more == more;
    } else {
      assert (blocks + more)[0] == blocks[0];
      assert (blocks + more)[1..] == blocks[1..] + more;
      ExtractCourseItemsAppend(blocks[1..], more);
      var head := RowItems(Classify(blocks[0].id), blocks[0].rows);
      var a, b := ExtractCourseItems(blocks[1..]), ExtractCourseItems(more);
      assert head + (a + b) == (head + a) + b;
    }
  }

  /** A single block gives its rows' summaries under its own category. */
  lemma ExtractCourseItemsOne(block: Block)
    ensures ExtractCourseItems([block]) == RowItems(Classify(block.id), block.rows)
  {
    assert [block][1..] == [];
  }

  /** Every listed row is reported, under its block's category. */
  lemma ListedRowReported(kind: Kind, rows: seq<Row>, j: int)
    requires 0 <= j < |rows| && Listed(rows[j])
    ensures Summary(kind, rows[j]) in RowItems(kind, rows)
  {
    FilterMapHas(rows, Listed, Summarize(kind), j);
  }

  /** Every reported summary comes from a listed row: `j` is that row. */
  lemma ReportedRowListed(kind: Kind, rows: seq<Row>, it: ItemSummary) returns (j: int)
    requires it in RowItems(kind, rows)
    ensures 0 <= j < |rows| && Listed(rows[j]) && it == Summary(kind, rows[j])
  {
    j := FilterMapFrom(rows, Listed, Summarize(kind), it);
  }

  /** A course page reports exactly its listed rows: each one, classified by
      its block, and nothing else. */
  lemma {:induction false} ExtractReportsListedRows(blocks: seq<Block>, it: ItemSummary)
    ensures it in ExtractCourseItems(blocks)
        <==> exists b, j | b in blocks && 0 <= j < |b.rows| :: Listed(b.rows[j]) && it == Summary(Classify(b.id), b.rows[j])
    decreases |blocks|
  {
    if blocks != [] {
      var b0 := blocks[0];
      var first := RowItems(Classify(b0.id), b0.rows);
      ExtractReportsListedRows(blocks[1..], it);
      assert ExtractCourseItems(blocks) == first + ExtractCourseItems(blocks[1..]);
      if it in first {
        var j := ReportedRowListed(Classify(b0.id), b0.rows, it);
        assert b0 in blocks && Listed(b0.rows[j]) && it == Summary(Classify(b0.id), b0.rows[j]);
      }
      if exists b, j | b in blocks && 0 <= j < |b.rows| :: Listed(b.rows[j]) && it == Summary(Classify(b.id), b.rows[j]) {
        var b, j :| b in blocks && 0 <= j < |b.rows| && Listed(b.rows[j]) && it == Summary(Classify(b.id), b.rows[j]);
        if b == b0 {
          ListedRowReported(Classify(b0.id), b0.rows, j);
        } else {
          assert b in blocks[1..];
        }
      }
    }
  }

  /** Every summary of a course page has a trimmed title, a click selector
      that reads back to a non-empty row id, and the category of some
      block of the page. */
  lemma ExtractedWellFormed(blocks: seq<Block>, it: ItemSummary) returns (b: Block)
    requires it in ExtractCourseItems(blocks)
    ensures WellFormed(it) && b in blocks && it.kind == Classify(b.id)
  {
    ExtractReportsListedRows(blocks, it);
    var b', j :| b' in blocks && 0 <= j < |b'.rows| && Listed(b'.rows[j]) && it == Summary(Classify(b'.id), b'.rows[j]);
    SummaryWellFormed(Classify(b'.id), b'.rows[j]);
    b := b';
  }
}
