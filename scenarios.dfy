/** Concrete block trees from the repository's tests, with the fetches and
    renders the model gives for them. */
module Scenarios {
  import opened Blocks
  import opened Text
  import opened Render
  import opened Fetch
  import opened RichTextRender
  import opened Tables

  function Plain(text: string): seq<RichText>
  {
    [RichText(text, None, NoAnnotations)]
  }

  /** A block as the children endpoint returns it: no `children` field yet. */
  function ListedBlock(id: string, hasChildren: bool, kind: BlockKind): Block
  {
    Block(Some(id), hasChildren, kind, [], false)
  }

  /** A page "page-1" split over two pages of results, holding a toggle
      whose heading child has a paragraph child. */
  const NestedSource: PageSource := map[
    ("page-1", None) :=
      Page([ListedBlock("toggle-1", true, Toggle(Plain("Animal-Based")))], true, Some("cursor-1")),
    ("page-1", Some("cursor-1")) :=
      Page([ListedBlock("para-top", false, Paragraph(Plain("Top level")))], false, None),
    ("toggle-1", None) :=
      Page([ListedBlock("heading-1", true, Heading3(Plain("Whey")))], false, None),
    ("heading-1", None) :=
      Page([ListedBlock("para-1", false, Paragraph(Plain("Fast digesting")))], false, None)
  ]

  lemma NestedSourceChainsEnd()
    ensures AllChainsEnd(NestedSource)
  {
    forall id
      ensures PaginationEnds(NestedSource, id)
    {
      if id != "page-1" && id != "toggle-1" && id != "heading-1" {
        assert (id, None) !in NestedSource;
      } else if id == "page-1" {
        assert Chain(NestedSource, id, Some("cursor-1"), 4).Some?;
      }
    }
  }

  const Para1 := ListedBlock("para-1", false, Paragraph(Plain("Fast digesting")))
  const HeadingBlock := ListedBlock("heading-1", true, Heading3(Plain("Whey")))
  const ToggleBlock := ListedBlock("toggle-1", true, Toggle(Plain("Animal-Based")))
  const ParaTop := ListedBlock("para-top", false, Paragraph(Plain("Top level")))
  const HeadingDone := HeadingBlock.(children := [Para1], childrenAttached := true)
  const ToggleDone := ToggleBlock.(children := [HeadingDone], childrenAttached := true)

  /** The heading inside the toggle gets its paragraph with one request. */
  lemma HeadingExpansion()
    requires AllChainsEnd(NestedSource)
    ensures ExpandChild(NestedSource, HeadingBlock, 1, MaxDepth, {"toggle-1"})
         == Expanded(Ok(HeadingDone), [("heading-1", None)], {"toggle-1"})
  {
    var pages := NestedSource;
    ChainEndsWithinPages(pages, "heading-1", None, 1);
    assert Listing(pages, "heading-1") == Listed(Ok([Para1]), [("heading-1", None)]);
    assert [Para1][1..] == [] && [Para1] + [] == [Para1];
    assert ExpandKids(pages, [Para1], 2, MaxDepth, {"toggle-1", "heading-1"})
        == Expanded(Ok([Para1]), [], {"toggle-1", "heading-1"});
  }

  /** The toggle gets its heading, expanded in turn, with two requests. */
  lemma ToggleExpansion()
    requires AllChainsEnd(NestedSource)
    ensures ExpandChild(NestedSource, ToggleBlock, 0, MaxDepth, {})
         == Expanded(Ok(ToggleDone), [("toggle-1", None), ("heading-1", None)], {})
  {
    var pages := NestedSource;
    HeadingExpansion();
    assert [HeadingBlock][1..] == [] && [HeadingDone] + [] == [HeadingDone];
    var headingCalls: seq<Key> := [("heading-1", None)];
    assert headingCalls + [] == headingCalls;
    assert ExpandKids(pages, [HeadingBlock], 1, MaxDepth, {"toggle-1"})
        == Expanded(Ok([HeadingDone]), headingCalls, {"toggle-1"});
    ChainEndsWithinPages(pages, "toggle-1", None, 1);
    assert Listing(pages, "toggle-1") == Listed(Ok([HeadingBlock]), [("toggle-1", None)]);
  }

  /** The children of "page-1" come from two pages, in cursor order. */
  lemma PageListing()
    ensures PaginationEnds(NestedSource, "page-1")
    ensures Listing(NestedSource, "page-1")
         == Listed(Ok([ToggleBlock, ParaTop]), [("page-1", None), ("page-1", Some("cursor-1"))])
  {
    assert RequestCursor(Some("cursor-1")) == Some("cursor-1");
    assert Chain(NestedSource, "page-1", Some("cursor-1"), 1)
        == Some(Listed(Ok([ParaTop]), [("page-1", Some("cursor-1"))]));
    assert [ToggleBlock] + [ParaTop] == [ToggleBlock, ParaTop];
    var calls: seq<Key> := [("page-1", None), ("page-1", Some("cursor-1"))];
    assert [("page-1", None)] + [("page-1", Some("cursor-1"))] == calls;
    assert Chain(NestedSource, "page-1", None, 2)
        == Some(Listed(Ok([ToggleBlock, ParaTop]), calls));
    ChainEndsWithinPages(NestedSource, "page-1", None, 2);
  }

  /** The recursive fetch of "page-1" follows the cursor of the first page,
      then descends into the toggle and its heading, and attaches the
      fetched children where the source has them, leaving the top-level
      paragraph without a `children` field. */
  lemma NestedFetch()
    ensures AllChainsEnd(NestedSource)
    ensures Expand(NestedSource, "page-1", 0, MaxDepth, {})
         == Expanded(Ok([ToggleDone, ParaTop]),
                     [("page-1", None), ("page-1", Some("cursor-1")), ("toggle-1", None), ("heading-1", None)],
                     {})
  {
    NestedSourceChainsEnd();
    var pages := NestedSource;
    ToggleExpansion();
    PageListing();
    assert [ParaTop][1..] == [] && [ParaTop] + [] == [ParaTop];
    assert ExpandKids(pages, [ParaTop], 0, MaxDepth, {}) == Expanded(Ok([ParaTop]), [], {});
    assert [ToggleBlock, ParaTop][1..] == [ParaTop];
    var calls: seq<Key> := [("toggle-1", None), ("heading-1", None)];
    assert calls + [] == calls;
    assert [ToggleDone] + [ParaTop] == [ToggleDone, ParaTop];
    assert ExpandKids(pages, [ToggleBlock, ParaTop], 0, MaxDepth, {})
        == Expanded(Ok([ToggleDone, ParaTop]), calls, {});
  }

  // ---------------------------------------------------------------------
  // Rendering
  // ---------------------------------------------------------------------

  /** A block as the renderer receives it from a fixture: no id, children
      given directly. */
  function Fixture(kind: BlockKind, children: seq<Block>): Block
  {
    Block(None, children != [], kind, children, children != [])
  }

  /** Unstyled text without a link renders as itself. */
  lemma PlainRendersAsIs(text: string)
    ensures InlineMarkdown(Plain(text)) == text
  {
    UnstyledRunsRenderPlain(Plain(text));
    assert Plain(text)[1..] == [];
  }

  /** A paragraph of plain text at the top level is that text. */
  lemma PlainParagraph(text: string)
    ensures BlockMarkdown(Fixture(Paragraph(Plain(text)), []), 0) == text
  {
    PlainRendersAsIs(text);
  }

  /** A top-level toggle with children is its summary line, a blank line,
      its children, a blank line and the closing tag. */
  lemma TopToggle(summary: string, kids: seq<Block>)
    requires kids != []
    ensures BlockMarkdown(Fixture(Toggle(Plain(summary)), kids), 0)
         == "<details>\n<summary>" + summary + "</summary>\n\n" + BlocksMarkdown(kids, 0, false) + "\n\n</details>"
  {
    PlainRendersAsIs(summary);
    assert Indent(0) == "";
    var inner := BlocksMarkdown(kids, 0, false);
    var body := "\n" + inner + "\n\n";
    assert BlockMarkdown(Fixture(Toggle(Plain(summary)), kids), 0) == Details("", summary, body);
    var open := "<details>\n<summary>";
    assert open == "<details>\n" + "<summary>";
    DropEmptyIndent("<details>\n", "<summary>", summary, "</summary>\n", body, "</details>", open);
    assert "</summary>\n\n" == "</summary>\n" + "\n";
    assert "\n\n</details>" == "\n\n" + "</details>";
    Regroup(open, summary, "</summary>\n", "\n", inner, "\n\n", "</details>", "</summary>\n\n", "\n\n</details>");
  }

  /** At depth 0 the indentation pieces of a `<details>` element vanish. */
  lemma DropEmptyIndent(a: string, b: string, summary: string, c: string, body: string, d: string, ab: string)
    requires ab == a + b
    ensures "" + a + "" + b + summary + c + body + "" + d == ab + summary + c + body + d
  {
    assert "" + a + "" + b == ab;
  }

  /** The same text, cut in different places. */
  lemma Regroup(a: string, s: string, b: string, c: string, x: string, d: string, e: string, bc: string, de: string)
    requires bc == b + c && de == d + e
    ensures a + s + b + (c + x + d) + e == a + s + bc + x + de
  {
  }

  /** A toggle with a paragraph and a nested toggle: both `<details>`
      elements, the inner one inside the outer one's body, all at the top
      level's indentation. */
  lemma NestedToggles()
    ensures BlocksMarkdown([Fixture(Toggle(Plain("Supplements")), [
              Fixture(Paragraph(Plain("Whey is fast digesting.")), []),
              Fixture(Toggle(Plain("Casein Notes")), [
                Fixture(Paragraph(Plain("Casein digests slowly.")), [])])])], 0, false)
         == "<details>\n<summary>" + "Supplements" + "</summary>\n\n"
            + ("Whey is fast digesting." + "\n\n"
               + ("<details>\n<summary>" + "Casein Notes" + "</summary>\n\n" + "Casein digests slowly." + "\n\n</details>"))
            + "\n\n</details>"
  {
    var slow := Fixture(Paragraph(Plain("Casein digests slowly.")), []);
    var inner := Fixture(Toggle(Plain("Casein Notes")), [slow]);
    var fast := Fixture(Paragraph(Plain("Whey is fast digesting.")), []);
    var outer := Fixture(Toggle(Plain("Supplements")), [fast, inner]);
    PlainParagraph("Casein digests slowly.");
    SingleBlock(slow, 0, false);
    TopToggle("Casein Notes", [slow]);
    var innerMd := "<details>\n<summary>" + "Casein Notes" + "</summary>\n\n" + "Casein digests slowly." + "\n\n</details>";
    assert BlocksMarkdown([slow], 0, false) == "Casein digests slowly.";
    assert BlockMarkdown(inner, 0) == innerMd;
    PlainParagraph("Whey is fast digesting.");
    BlocksMarkdownAppend([fast], [inner], 0, false);
    assert [fast] + [inner] == [fast, inner];
    SingleBlock(fast, 0, false);
    SingleBlock(inner, 0, false);
    var kidsMd := "Whey is fast digesting." + "\n\n" + innerMd;
    assert BlocksMarkdown([fast, inner], 0, false) == kidsMd;
    TopToggle("Supplements", [fast, inner]);
    SingleBlock(outer, 0, false);
  }

  /** A count of a character the text does not contain is zero. */
  lemma {:induction false} CountAbsent(t: string, c: char)
    requires c !in t
    ensures Count(t, c) == 0
  {
    if t != [] {
      assert t[0] != c;
      assert c !in t[1..];
      CountAbsent(t[1..], c);
    }
  }

  /** Plain cell text without a pipe or a line break is its own cell. */
  lemma PlainCell(t: string)
    requires '|' !in t && '\n' !in t
    ensures EscapeCell(InlineMarkdown(Plain(t))) == t
  {
    PlainRendersAsIs(t);
    CountAbsent(t, '|');
    CountAbsent(t, '\n');
    EscapeCellSpec(t);
  }

  /** A table row block of three plain cells. */
  function Row3(a: string, b: string, c: string): Block
  {
    Fixture(TableRow([Plain(a), Plain(b), Plain(c)]), [])
  }

  lemma Row3Cells(a: string, b: string, c: string)
    requires '|' !in a && '\n' !in a && '|' !in b && '\n' !in b && '|' !in c && '\n' !in c
    ensures TableRows([Row3(a, b, c)]) == [[a, b, c]]
  {
    PlainCell(a);
    PlainCell(b);
    PlainCell(c);
    assert RowCells([Plain(a), Plain(b), Plain(c)]) == [a, b, c];
    assert [Row3(a, b, c)][1..] == [];
  }

  /** The line of a top-level row of three cells. */
  lemma Row3Line(a: string, b: string, c: string)
    ensures RowLine("", [a, b, c]) == "| " + a + " | " + b + " | " + c + " |"
  {
    assert [a, b, c][1..] == [b, c] && [b, c][1..] == [c];
    assert Join(" | ", [c]) == c;
    assert Join(" | ", [b, c]) == b + " | " + c;
  }

  /** The top-level lines of `rows`, in order. */
  function RowLines(rows: seq<seq<string>>): seq<string>
  {
    if rows == [] then [] else [RowLine("", rows[0])] + RowLines(rows[1..])
  }

  lemma {:induction false} RowLinesIndex(rows: seq<seq<string>>)
    ensures |RowLines(rows)| == |rows|
    ensures forall i :: 0 <= i < |rows| ==> RowLines(rows)[i] == RowLine("", rows[i])
  {
    if rows != [] {
      RowLinesIndex(rows[1..]);
    }
  }

  /** A row line of three cells, given as the text it spells. */
  lemma Line3(a: string, b: string, c: string, line: string)
    requires line == "| " + a + " | " + b + " | " + c + " |"
    ensures RowLine("", [a, b, c]) == line
  {
    Row3Line(a, b, c);
  }

  lemma RowLinesOfTwo(a: seq<string>, b: seq<string>)
    ensures RowLines([a, b]) == [RowLine("", a), RowLine("", b)]
  {
    assert [a, b][1..] == [b] && [b][1..] == [];
    assert RowLines([]) == [];
    assert [RowLine("", b)] + [] == [RowLine("", b)];
    assert RowLines([b]) == [RowLine("", b)];
    assert [RowLine("", a)] + [RowLine("", b)] == [RowLine("", a), RowLine("", b)];
  }

  /** A table whose rows all have exactly the declared width `w > 0`: no row
      is padded, and the lines are the header, the separator and the rows
      that are not the header. */
  lemma FullWidthTable(w: nat, hasColumnHeader: bool, rows: seq<seq<string>>)
    requires w > 0 && forall i :: 0 <= i < |rows| ==> |rows[i]| == w
    ensures TableWidth(w, rows) == w
    ensures TableLines("", w, hasColumnHeader, rows)
         == [RowLine("", if hasColumnHeader && rows != [] then rows[0] else Repeat("", w)),
             RowLine("", Repeat("---", w))]
            + RowLines(if hasColumnHeader && rows != [] then rows[1..] else rows)
  {
    var normalized := seq(|rows|, i requires 0 <= i < |rows| => Pad(rows[i], w));
    FullRowsUnpadded(w, rows);
    assert normalized == rows;
    var header := if UsesHeaderRow(hasColumnHeader, rows) then rows[0] else Repeat("", w);
    var data := if UsesHeaderRow(hasColumnHeader, rows) then rows[1..] else rows;
    var body := seq(|data|, i requires 0 <= i < |data| => RowLine("", data[i]));
    assert TableLines("", w, hasColumnHeader, rows) == [RowLine("", header), RowLine("", Repeat("---", w))] + body;
    RowLinesIndex(data);
    assert body == RowLines(data);
  }

  /** Rows already `w` cells wide are left as they are by the padding. */
  lemma FullRowsUnpadded(w: nat, rows: seq<seq<string>>)
    requires forall i :: 0 <= i < |rows| ==> |rows[i]| == w
    ensures forall i :: 0 <= i < |rows| ==> Pad(rows[i], w) == rows[i]
  {
    forall i | 0 <= i < |rows|
      ensures Pad(rows[i], w) == rows[i]
    {
      assert Pad(rows[i], w)[..|rows[i]|] == rows[i];
    }
  }

  const SupplementRows: seq<Block> := [
    Row3("Supplement", "Protein (g)", "Price"),
    Row3("Whey Isolate", "25", "$39"),
    Row3("Casein", "24", "$34")]

  const SupplementCells: seq<seq<string>> :=
    [["Supplement", "Protein (g)", "Price"], ["Whey Isolate", "25", "$39"], ["Casein", "24", "$34"]]

  /** The rows of two rows are the rows of each. */
  lemma TableRowsOfTwo(r1: Block, r2: Block, c1: seq<string>, c2: seq<string>)
    requires TableRows([r1]) == [c1] && TableRows([r2]) == [c2]
    ensures TableRows([r1, r2]) == [c1, c2]
  {
    TableRowsAppend([r1], [r2]);
    assert [r1] + [r2] == [r1, r2];
  }

  lemma SupplementHeadRow()
    ensures TableRows([SupplementRows[0]]) == [SupplementCells[0]]
  {
    Row3Cells("Supplement", "Protein (g)", "Price");
  }

  lemma WheyRow()
    ensures TableRows([SupplementRows[1]]) == [SupplementCells[1]]
  {
    Row3Cells("Whey Isolate", "25", "$39");
  }

  lemma CaseinRow()
    ensures TableRows([SupplementRows[2]]) == [SupplementCells[2]]
  {
    Row3Cells("Casein", "24", "$34");
  }

  lemma SupplementTableRows()
    ensures TableRows(SupplementRows) == SupplementCells
  {
    var r1, r2, r3 := SupplementRows[0], SupplementRows[1], SupplementRows[2];
    var c1, c2, c3 := SupplementCells[0], SupplementCells[1], SupplementCells[2];
    SupplementHeadRow();
    WheyRow();
    CaseinRow();
    TableRowsOfTwo(r2, r3, c2, c3);
    TableRowsAppend([r1], [r2, r3]);
    assert [r1] + [r2, r3] == SupplementRows;
    assert [c1] + [c2, c3] == SupplementCells;
  }

  /** The separator line of a three-column table. */
  lemma Separator3()
    ensures RowLine("", Repeat("---", 3)) == "| --- | --- | --- |"
  {
    assert Repeat("---", 3) == ["---", "---", "---"];
    Line3("---", "---", "---", "| --- | --- | --- |");
  }

  /** The header line of empty cells of a three-column table. */
  lemma BlankHeader3()
    ensures RowLine("", Repeat("", 3)) == "|  |  |  |"
  {
    assert Repeat("", 3) == ["", "", ""];
    Line3("", "", "", "|  |  |  |");
  }

  lemma SupplementHeader()
    ensures RowLine("", SupplementCells[0]) == "| Supplement | Protein (g) | Price |"
  {
    Line3("Supplement", "Protein (g)", "Price", "| Supplement | Protein (g) | Price |");
  }

  lemma WheyLine()
    ensures RowLine("", ["Whey Isolate", "25", "$39"]) == "| Whey Isolate | 25 | $39 |"
  {
    Line3("Whey Isolate", "25", "$39", "| Whey Isolate | 25 | $39 |");
  }

  lemma CaseinLine()
    ensures RowLine("", ["Casein", "24", "$34"]) == "| Casein | 24 | $34 |"
  {
    Line3("Casein", "24", "$34", "| Casein | 24 | $34 |");
  }

  lemma SupplementData()
    ensures RowLines(SupplementCells[1..]) == ["| Whey Isolate | 25 | $39 |", "| Casein | 24 | $34 |"]
  {
    var x1, x2 := ["Whey Isolate", "25", "$39"], ["Casein", "24", "$34"];
    WheyLine();
    CaseinLine();
    assert SupplementCells[1..] == [x1, x2];
    RowLinesOfTwo(x1, x2);
  }

  lemma SupplementTableLines()
    ensures TableWidth(3, SupplementCells) == 3
    ensures TableLines("", 3, true, SupplementCells)
         == ["| Supplement | Protein (g) | Price |", "| --- | --- | --- |", "| Whey Isolate | 25 | $39 |", "| Casein | 24 | $34 |"]
  {
    FullWidthTable(3, true, SupplementCells);
    SupplementHeader();
    Separator3();
    SupplementData();
  }

  /** A top-level table document is the table's lines joined by breaks. */
  lemma TopTable(tableWidth: int, hasColumnHeader: bool, children: seq<Block>, rows: seq<seq<string>>, w: nat, lines: seq<string>)
    requires TableRows(children) == rows && TableWidth(tableWidth, rows) == w && w > 0
    requires (forall i :: 0 <= i < |rows| ==> |rows[i]| <= w) && TableLines("", w, hasColumnHeader, rows) == lines
    ensures BlocksMarkdown([Fixture(Table(tableWidth, hasColumnHeader), children)], 0, false) == Join("\n", lines)
  {
    var b := Fixture(Table(tableWidth, hasColumnHeader), children);
    assert Indent(0) == "";
    assert TableMarkdown(tableWidth, hasColumnHeader, children, 0) == Join("\n", lines);
    SingleBlock(b, 0, false);
  }

  /** A declared-width table with a column header: the first row is the
      header, then the `---` separator, then the other rows in order. */
  lemma HeaderTable()
    ensures BlocksMarkdown([Fixture(Table(3, true), SupplementRows)], 0, false)
         == Join("\n", ["| Supplement | Protein (g) | Price |",
                        "| --- | --- | --- |",
                        "| Whey Isolate | 25 | $39 |",
                        "| Casein | 24 | $34 |"])
  {
    SupplementTableRows();
    SupplementTableLines();
    TopTable(3, true, SupplementRows, SupplementCells, 3, TableLines("", 3, true, SupplementCells));
  }

  const ProteinRows: seq<Block> := [
    Row3("Animal-Based", "Whey", "Fast"),
    Row3("Plant-Based", "Soy", "Moderate")]

  const ProteinCells: seq<seq<string>> :=
    [["Animal-Based", "Whey", "Fast"], ["Plant-Based", "Soy", "Moderate"]]

  lemma AnimalRow()
    ensures TableRows([ProteinRows[0]]) == [ProteinCells[0]]
  {
    Row3Cells("Animal-Based", "Whey", "Fast");
  }

  lemma PlantRow()
    ensures TableRows([ProteinRows[1]]) == [ProteinCells[1]]
  {
    Row3Cells("Plant-Based", "Soy", "Moderate");
  }

  lemma ProteinTableRows()
    ensures TableRows(ProteinRows) == ProteinCells
  {
    AnimalRow();
    PlantRow();
    TableRowsOfTwo(ProteinRows[0], ProteinRows[1], ProteinCells[0], ProteinCells[1]);
    assert [ProteinRows[0], ProteinRows[1]] == ProteinRows;
    assert [ProteinCells[0], ProteinCells[1]] == ProteinCells;
  }

  lemma AnimalLine()
    ensures RowLine("", ProteinCells[0]) == "| Animal-Based | Whey | Fast |"
  {
    Line3("Animal-Based", "Whey", "Fast", "| Animal-Based | Whey | Fast |");
  }

  lemma PlantLine()
    ensures RowLine("", ProteinCells[1]) == "| Plant-Based | Soy | Moderate |"
  {
    Line3("Plant-Based", "Soy", "Moderate", "| Plant-Based | Soy | Moderate |");
  }

  lemma ProteinData()
    ensures RowLines(ProteinCells) == ["| Animal-Based | Whey | Fast |", "| Plant-Based | Soy | Moderate |"]
  {
    AnimalLine();
    PlantLine();
    RowLinesOfTwo(ProteinCells[0], ProteinCells[1]);
    assert [ProteinCells[0], ProteinCells[1]] == ProteinCells;
  }

  lemma ProteinTableLines()
    ensures TableWidth(3, ProteinCells) == 3
    ensures TableLines("", 3, false, ProteinCells)
         == ["|  |  |  |", "| --- | --- | --- |", "| Animal-Based | Whey | Fast |", "| Plant-Based | Soy | Moderate |"]
  {
    FullWidthTable(3, false, ProteinCells);
    BlankHeader3();
    Separator3();
    ProteinData();
  }

  /** A table without a column header gets a header of empty cells and no
      invented column names; every row is a data row. */
  lemma HeaderlessTable()
    ensures BlocksMarkdown([Fixture(Table(3, false), ProteinRows)], 0, false)
         == Join("\n", ["|  |  |  |",
                        "| --- | --- | --- |",
                        "| Animal-Based | Whey | Fast |",
                        "| Plant-Based | Soy | Moderate |"])
  {
    ProteinTableRows();
    ProteinTableLines();
    TopTable(3, false, ProteinRows, ProteinCells, 3, TableLines("", 3, false, ProteinCells));
  }
}
