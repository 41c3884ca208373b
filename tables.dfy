/** `_escape_table_cell` and `_render_table_markdown`: a Notion table block
    and its table_row children become a GitHub-flavoured Markdown pipe
    table whose every line has the same number of cells. */
module Tables {
  import opened Blocks
  import opened Text
  import opened RichTextRender

  // ---------------------------------------------------------------------
  // Cell escaping
  // ---------------------------------------------------------------------

  /** `s.replace(c, rep)` for a one-character pattern. */
  function ReplaceChar(s: string, c: char, rep: string): string
  {
    if s == [] then "" else (if s[0] == c then rep else [s[0]]) + ReplaceChar(s[1..], c, rep)
  }

  /** `_escape_table_cell(text)`: `text.replace("|", "\\|").replace("\n", "<br>")` */
  function EscapeCell(text: string): string
  {
    ReplaceChar(ReplaceChar(text, '|', "\\|"), '\n', "<br>")
  }

  /** Number of occurrences of `c` in `s`. */
  function Count(s: string, c: char): nat
  {
    if s == [] then 0 else (if s[0] == c then 1 else 0) + Count(s[1..], c)
  }

  /** The pipes of `s` that a pipe table reads as cell borders: those not
      directly preceded by a backslash (`afterBackslash` says whether the
      character just before `s` is one). */
  function BordersAfter(s: string, afterBackslash: bool): nat
  {
    if s == [] then 0
    else (if s[0] == '|' && !afterBackslash then 1 else 0) + BordersAfter(s[1..], s[0] == '\\')
  }

  /** Whether the character just before whatever follows `s` is a backslash. */
  function EndsInBackslash(s: string, afterBackslash: bool): bool
  {
    if s == [] then afterBackslash else s[|s| - 1] == '\\'
  }

  /** Text that contributes no cell border wherever it is placed. */
  predicate Borderless(s: string)
  {
    BordersAfter(s, false) == 0 && BordersAfter(s, true) == 0
  }

  /** The number of cells a pipe-table line holds: one fewer than its borders. */
  function ColumnCount(line: string): int
  {
    BordersAfter(line, false) - 1
  }

  lemma {:induction false} BordersAppend(a: string, b: string, afterBackslash: bool)
    ensures BordersAfter(a + b, afterBackslash)
         == BordersAfter(a, afterBackslash) + BordersAfter(b, EndsInBackslash(a, afterBackslash))
  {
    if a == [] {
      assert a + b == b;
    } else {
      assert (a + b)[1..] == a[1..] + b;
      BordersAppend(a[1..], b, a[0] == '\\');
      if |a| > 1 {
        assert EndsInBackslash(a[1..], a[0] == '\\') == EndsInBackslash(a, afterBackslash);
      }
    }
  }

  lemma {:induction false} CountAppend(a: string, b: string, c: char)
    ensures Count(a + b, c) == Count(a, c) + Count(b, c)
  {
    if a == [] {
      assert a + b == b;
    } else {
      assert (a + b)[1..] == a[1..] + b;
      CountAppend(a[1..], b, c);
    }
  }

  lemma {:induction false} ReplaceCharAppend(a: string, b: string, c: char, rep: string)
    ensures ReplaceChar(a + b, c, rep) == ReplaceChar(a, c, rep) + ReplaceChar(b, c, rep)
  {
    if a == [] {
      assert a + b == b;
    } else {
      assert (a + b)[1..] == a[1..] + b;
      ReplaceCharAppend(a[1..], b, c, rep);
    }
  }

  /** What one input character becomes in an escaped cell. */
  function EscapeChar(c: char): string
  {
    if c == '|' then "\\|" else if c == '\n' then "<br>" else [c]
  }

  /** The two replacements of `_escape_table_cell` act character by
      character: the first introduces no line break, the second no pipe. */
  lemma {:induction false} EscapeCellByChar(t: string)
    ensures t != [] ==> EscapeCell(t) == EscapeChar(t[0]) + EscapeCell(t[1..])
  {
    if t != [] {
      var first := if t[0] == '|' then "\\|" else [t[0]];
      assert ReplaceChar(t, '|', "\\|") == first + ReplaceChar(t[1..], '|', "\\|");
      ReplaceCharAppend(first, ReplaceChar(t[1..], '|', "\\|"), '\n', "<br>");
      assert ReplaceChar(first, '\n', "<br>") == EscapeChar(t[0]) by {
        if t[0] == '|' {
          assert first[1..][1..] == [];
        } else {
          assert first[1..] == [];
        }
      }
    }
  }

  /** Cell escaping: the result holds no raw line break, every pipe in it is
      escaped (so it adds no cell border wherever it stands), the pipes of
      the input are all still there, each line break became the four
      characters `<br>`, and text with neither is left as it is. */
  lemma {:induction false} EscapeCellSpec(t: string)
    ensures '\n' !in EscapeCell(t)
    ensures Borderless(EscapeCell(t))
    ensures Count(EscapeCell(t), '|') == Count(t, '|')
    ensures |EscapeCell(t)| == |t| + Count(t, '|') + 3 * Count(t, '\n')
    ensures Count(t, '|') == 0 && Count(t, '\n') == 0 ==> EscapeCell(t) == t
  {
    if t != [] {
      EscapeCellByChar(t);
      EscapeCellSpec(t[1..]);
      var head, tail := EscapeChar(t[0]), EscapeCell(t[1..]);
      CountAppend(head, tail, '|');
      forall p: bool ensures BordersAfter(head + tail, p) == 0 {
        BordersAppend(head, tail, p);
      }
      if t[0] == '|' {
        assert head[1..][1..] == [];
      } else if t[0] != '\n' {
        assert head[1..] == [];
        assert [t[0]] + t[1..] == t;
      }
    }
  }

  // ---------------------------------------------------------------------
  // Rows and width
  // ---------------------------------------------------------------------

  /** The escaped inline Markdown of each cell of one row. */
  function RowCells(cells: seq<seq<RichText>>): seq<string>
  {
    seq(|cells|, i requires 0 <= i < |cells| => EscapeCell(InlineMarkdown(cells[i])))
  }

  /** Every cell of a rendered row is safe inside a pipe table: it closes
      no column early and does not break the line. */
  lemma RowCellsEscaped(cells: seq<seq<RichText>>)
    ensures |RowCells(cells)| == |cells|
    ensures forall j :: 0 <= j < |RowCells(cells)| ==> Borderless(RowCells(cells)[j]) && '\n' !in RowCells(cells)[j]
  {
    forall j | 0 <= j < |cells| ensures Borderless(RowCells(cells)[j]) && '\n' !in RowCells(cells)[j] {
      EscapeCellSpec(InlineMarkdown(cells[j]));
    }
  }

  /** The rows of a table: the cells of its table_row children, in order;
      children of any other kind are skipped. */
  function TableRows(children: seq<Block>): seq<seq<string>>
  {
    if children == [] then []
    else (if children[0].kind.TableRow? then [RowCells(children[0].kind.cells)] else []) + TableRows(children[1..])
  }

  lemma {:induction false} TableRowsAppend(a: seq<Block>, b: seq<Block>)
    ensures TableRows(a + b) == TableRows(a) + TableRows(b)
  {
    if a == [] {
      assert a + b == b;
    } else {
      assert (a + b)[1..] == a[1..] + b;
      TableRowsAppend(a[1..], b);
    }
  }

  /** `max((len(r) for r in rows), default=0)` */
  function LongestRow(rows: seq<seq<string>>): (w: nat)
    ensures forall i :: 0 <= i < |rows| ==> |rows[i]| <= w
    ensures rows == [] ==> w == 0
    ensures rows != [] ==> exists i :: 0 <= i < |rows| && |rows[i]| == w
  {
    if rows == [] then 0
    else
      var rest := LongestRow(rows[1..]);
      if |rows[0]| >= rest then |rows[0]| else rest
  }

  /** `max(inferred_width, table_width or 0)`: the smallest width that is
      not negative, at least the declared one and fits every row. It is the
      declared width, the length of some row, or 0 when there are no rows
      and the declared width is not positive. */
  function TableWidth(declared: int, rows: seq<seq<string>>): (w: int)
    ensures w >= 0 && w >= declared
    ensures forall i :: 0 <= i < |rows| ==> |rows[i]| <= w
    ensures w == declared || (rows == [] && w == 0) || exists i :: 0 <= i < |rows| && |rows[i]| == w
  {
    var inferred := LongestRow(rows);
    if inferred >= declared then inferred else declared
  }

  /** `row + [""] * (width - len(row))` */
  function Pad(row: seq<string>, width: nat): (r: seq<string>)
    requires |row| <= width
    ensures |r| == width
    ensures r[..|row|] == row
    ensures forall i :: |row| <= i < width ==> r[i] == ""
  {
    row + Repeat("", width - |row|)
  }

  /** `f"{indent}| " + " | ".join(cells) + " |"` */
  function RowLine(indent: string, cells: seq<string>): string
  {
    indent + "| " + Join(" | ", cells) + " |"
  }

  /** Whether the first row is the header: `has_column_header and normalized`. */
  predicate UsesHeaderRow(hasColumnHeader: bool, rows: seq<seq<string>>)
  {
    hasColumnHeader && rows != []
  }

  /** The lines of a table of positive width: header, separator, data rows. */
  function TableLines(indent: string, width: nat, hasColumnHeader: bool, rows: seq<seq<string>>): seq<string>
    requires forall i :: 0 <= i < |rows| ==> |rows[i]| <= width
  {
    var normalized := seq(|rows|, i requires 0 <= i < |rows| => Pad(rows[i], width));
    var header := if UsesHeaderRow(hasColumnHeader, rows) then normalized[0] else Repeat("", width);
    var dataRows := if UsesHeaderRow(hasColumnHeader, rows) then normalized[1..] else normalized;
    [RowLine(indent, header), RowLine(indent, Repeat("---", width))]
      + seq(|dataRows|, i requires 0 <= i < |dataRows| => RowLine(indent, dataRows[i]))
  }

  /** `_render_table_markdown(table_block, depth)` for a table whose payload
      declares `tableWidth` and `hasColumnHeader` and whose children are
      `children`. */
  function TableMarkdown(tableWidth: int, hasColumnHeader: bool, children: seq<Block>, depth: nat): string
  {
    var rows := TableRows(children);
    var width := TableWidth(tableWidth, rows);
    if width <= 0 then Indent(depth) + "<table></table>"
    else Join("\n", TableLines(Indent(depth), width, hasColumnHeader, rows))
  }

  // ---------------------------------------------------------------------
  // Properties of the rendered table
  // ---------------------------------------------------------------------

  /** Every cell of the rows of a table is escaped text. */
  lemma {:induction false} TableRowsEscaped(children: seq<Block>)
    ensures EscapedRows(TableRows(children))
  {
    if children != [] {
      TableRowsEscaped(children[1..]);
      if children[0].kind.TableRow? {
        RowCellsEscaped(children[0].kind.cells);
      }
    }
  }

  lemma {:induction false} SpacesAreBorderless(s: string)
    requires forall i :: 0 <= i < |s| ==> s[i] == ' '
    ensures BordersAfter(s, false) == 0 && !EndsInBackslash(s, false)
  {
    if s != [] {
      SpacesAreBorderless(s[1..]);
    }
  }

  /** Joining borderless cells with " | " yields one border per separator. */
  lemma {:induction false} JoinedCellBorders(cells: seq<string>, afterBackslash: bool)
    requires cells != []
    requires forall i :: 0 <= i < |cells| ==> Borderless(cells[i])
    ensures BordersAfter(Join(" | ", cells), afterBackslash) == |cells| - 1
  {
    if |cells| > 1 {
      var head := cells[0] + " | ";
      JoinedCellBorders(cells[1..], false);
      BordersAppend(cells[0], " | ", afterBackslash);
      BordersAppend(head, Join(" | ", cells[1..]), afterBackslash);
      assert Join(" | ", cells) == head + Join(" | ", cells[1..]);
    }
  }

  /** A row line over borderless cells has exactly as many cells as given,
      and holds no line break when the cells hold none. */
  lemma RowLineShape(depth: nat, cells: seq<string>)
    requires cells != []
    requires forall i :: 0 <= i < |cells| ==> Borderless(cells[i]) && '\n' !in cells[i]
    ensures ColumnCount(RowLine(Indent(depth), cells)) == |cells|
    ensures '\n' !in RowLine(Indent(depth), cells)
  {
    var indent := Indent(depth);
    var joined := Join(" | ", cells);
    SpacesAreBorderless(indent);
    BordersAppend(indent, "| ", false);
    JoinedCellBorders(cells, false);
    BordersAppend(indent + "| ", joined, false);
    BordersAppend(indent + "| " + joined, " |", EndsInBackslash(indent + "| ", false));
    JoinHasNoLineBreak(cells);
  }

  lemma {:induction false} JoinHasNoLineBreak(cells: seq<string>)
    requires forall i :: 0 <= i < |cells| ==> '\n' !in cells[i]
    ensures '\n' !in Join(" | ", cells)
  {
    if |cells| > 1 {
      JoinHasNoLineBreak(cells[1..]);
    }
  }

  /** The emitted lines of a table of positive width: the header (the first
      row when the table declares a column header and has rows, else
      `width` empty cells), the `---` separator, then the remaining rows in
      order, each padded with empty cells to `width`. */
  lemma TableLinesContent(indent: string, width: nat, hasColumnHeader: bool, rows: seq<seq<string>>)
    requires forall i :: 0 <= i < |rows| ==> |rows[i]| <= width
    ensures var lines := TableLines(indent, width, hasColumnHeader, rows);
            var skip := if UsesHeaderRow(hasColumnHeader, rows) then 1 else 0;
            && |lines| == 2 + |rows| - skip
            && lines[0] == RowLine(indent, if skip == 1 then Pad(rows[0], width) else Repeat("", width))
            && lines[1] == RowLine(indent, Repeat("---", width))
            && forall i :: 2 <= i < |lines| ==> lines[i] == RowLine(indent, Pad(rows[i - 2 + skip], width))
  {
    var normalized := seq(|rows|, i requires 0 <= i < |rows| => Pad(rows[i], width));
    var skip := if UsesHeaderRow(hasColumnHeader, rows) then 1 else 0;
    var dataRows := normalized[skip..];
    var header := if skip == 1 then normalized[0] else Repeat("", width);
    var body := seq(|dataRows|, i requires 0 <= i < |dataRows| => RowLine(indent, dataRows[i]));
    var lines := TableLines(indent, width, hasColumnHeader, rows);
    assert lines == [RowLine(indent, header), RowLine(indent, Repeat("---", width))] + body;
    forall i | 2 <= i < |lines|
      ensures lines[i] == RowLine(indent, Pad(rows[i - 2 + skip], width))
    {
      assert lines[i] == body[i - 2];
    }
  }

  /** Every line of a rendered table of positive width has exactly `width`
      cells and no line break, and the table text splits into exactly those
      lines: two more than the data rows. */
  lemma TableShape(tableWidth: int, hasColumnHeader: bool, children: seq<Block>, depth: nat)
    requires TableWidth(tableWidth, TableRows(children)) > 0
    ensures var rows := TableRows(children);
            var width := TableWidth(tableWidth, rows);
            var lines := SplitLines(TableMarkdown(tableWidth, hasColumnHeader, children, depth));
            && |lines| == 2 + |rows| - (if UsesHeaderRow(hasColumnHeader, rows) then 1 else 0)
            && forall i :: 0 <= i < |lines| ==> ColumnCount(lines[i]) == width
  {
    var rows := TableRows(children);
    var width := TableWidth(tableWidth, rows);
    var lines := TableLines(Indent(depth), width, hasColumnHeader, rows);
    TableRowsEscaped(children);
    TableLinesContent(Indent(depth), width, hasColumnHeader, rows);
    forall i | 0 <= i < |lines| ensures ColumnCount(lines[i]) == width && '\n' !in lines[i] {
      TableLineShape(depth, width, hasColumnHeader, rows, i);
    }
    SplitJoinLines(lines);
    assert TableMarkdown(tableWidth, hasColumnHeader, children, depth) == Join("\n", lines);
  }

  /** Rows whose every cell is escaped text. */
  predicate EscapedRows(rows: seq<seq<string>>)
  {
    forall i, j :: 0 <= i < |rows| && 0 <= j < |rows[i]| ==> Borderless(rows[i][j]) && '\n' !in rows[i][j]
  }

  /** One line of a table of positive width: `width` cells, no line break. */
  lemma TableLineShape(depth: nat, width: nat, hasColumnHeader: bool, rows: seq<seq<string>>, i: nat)
    requires width > 0
    requires forall k :: 0 <= k < |rows| ==> |rows[k]| <= width
    requires EscapedRows(rows)
    requires i < |TableLines(Indent(depth), width, hasColumnHeader, rows)|
    ensures ColumnCount(TableLines(Indent(depth), width, hasColumnHeader, rows)[i]) == width
    ensures '\n' !in TableLines(Indent(depth), width, hasColumnHeader, rows)[i]
  {
    var lines := TableLines(Indent(depth), width, hasColumnHeader, rows);
    TableLinesContent(Indent(depth), width, hasColumnHeader, rows);
    var skip := if UsesHeaderRow(hasColumnHeader, rows) then 1 else 0;
    var cells: seq<string>;
    if i == 1 {
      cells := Repeat("---", width);
    } else if i == 0 && skip == 0 {
      cells := Repeat("", width);
    } else {
      var row := if i == 0 then rows[0] else rows[i - 2 + skip];
      cells := Pad(row, width);
      forall j | 0 <= j < width ensures Borderless(cells[j]) && '\n' !in cells[j] {
        if j < |row| {
          assert cells[j] == cells[..|row|][j] == row[j];
        }
      }
    }
    assert lines[i] == RowLine(Indent(depth), cells);
    RowLineShape(depth, cells);
  }

  /** The `<table></table>` placeholder appears exactly when the width is not positive. */
  lemma EmptyTableIff(tableWidth: int, hasColumnHeader: bool, children: seq<Block>, depth: nat)
    ensures TableMarkdown(tableWidth, hasColumnHeader, children, depth) == Indent(depth) + "<table></table>"
        <==> TableWidth(tableWidth, TableRows(children)) <= 0
  {
    var rows := TableRows(children);
    var width := TableWidth(tableWidth, rows);
    if width > 0 {
      var indent := Indent(depth);
      var lines := TableLines(indent, width, hasColumnHeader, rows);
      var out := Join("\n", lines);
      JoinStartsWithFirst("\n", lines);
      assert lines[0] == indent + "| " + Join(" | ", Repeat("", width)) + " |" || lines[0] == RowLine(indent, Pad(rows[0], width));
      assert lines[0][|indent|] == '|';
      assert out[|indent|] == '|';
      assert (indent + "<table></table>")[|indent|] == '<';
    }
  }

  /** Children that are not table rows have no effect on the table. */
  lemma NonRowChildrenIgnored(tableWidth: int, hasColumnHeader: bool, before: seq<Block>, b: Block, after: seq<Block>, depth: nat)
    requires !b.kind.TableRow?
    ensures TableMarkdown(tableWidth, hasColumnHeader, before + [b] + after, depth)
         == TableMarkdown(tableWidth, hasColumnHeader, before + after, depth)
  {
    assert TableRows([b]) == [] by {
      assert [b][1..] == [];
    }
    TableRowsAppend(before, [b]);
    assert TableRows(before + [b]) == TableRows(before);
    TableRowsAppend(before + [b], after);
    TableRowsAppend(before, after);
    assert TableRows(before + [b] + after) == TableRows(before + after);
  }

  /** A rendered table starts with the indentation of its depth and has
      something after it. */
  lemma TableStartsWithIndent(tableWidth: int, hasColumnHeader: bool, children: seq<Block>, depth: nat)
    ensures Indent(depth) <= TableMarkdown(tableWidth, hasColumnHeader, children, depth)
    ensures |TableMarkdown(tableWidth, hasColumnHeader, children, depth)| > |Indent(depth)|
  {
    var rows := TableRows(children);
    var width := TableWidth(tableWidth, rows);
    if width > 0 {
      var lines := TableLines(Indent(depth), width, hasColumnHeader, rows);
      JoinStartsWithFirst("\n", lines);
      assert Indent(depth) + "| " <= lines[0];
    }
  }
}
