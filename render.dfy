/** `block_to_md` and `blocks_to_markdown`: the depth-first conversion of a
    fetched block tree into one Markdown text. */
module Render {
  import opened Blocks
  import opened Text
  import opened RichTextRender
  import opened Tables

  /** The separator between rendered siblings: a single line break inside a
      list (tight list), a blank line otherwise. */
  function Separator(listContext: bool): string
  {
    if listContext then "\n" else "\n\n"
  }

  /** The first line of a bulleted, numbered or to-do item. Numbered items
      always carry the literal `1. `; Markdown renumbers them. */
  function ItemLine(kind: BlockKind, depth: nat): string
    requires kind.BulletedListItem? || kind.NumberedListItem? || kind.ToDo?
  {
    var marker :=
      match kind
      case BulletedListItem(_) => "- "
      case NumberedListItem(_) => "1. "
      case ToDo(_, checked) => if checked then "- [x] " else "- [ ] ";
    Indent(depth) + marker + InlineMarkdown(kind.richText)
  }

  /** A toggle as a `<details>` element: the opening tag and the summary on
      their own lines, then `body`, then the closing tag, each tag line
      starting with `indent`. */
  function Details(indent: string, summary: string, body: string): string
  {
    indent + "<details>\n" + indent + "<summary>" + summary + "</summary>\n" + body + indent + "</details>"
  }

  /** Whether `block_to_md` renders the kind without looking at children. */
  predicate IsLeafKind(kind: BlockKind)
  {
    !(kind.BulletedListItem? || kind.NumberedListItem? || kind.ToDo? || kind.Toggle? || kind.Table?)
  }

  /** What follows the indentation for a kind rendered without its children;
      `indent` is repeated before the closing fence of a code block. */
  function LeafBody(kind: BlockKind, indent: string): string
    requires IsLeafKind(kind)
  {
    match kind
    case Paragraph(rt) => InlineMarkdown(rt)
    case Heading1(rt) => "# " + InlineMarkdown(rt)
    case Heading2(rt) => "## " + InlineMarkdown(rt)
    case Heading3(rt) => "### " + InlineMarkdown(rt)
    case Quote(rt) => "> " + InlineMarkdown(rt)
    case Code(rt, language) =>
      "```" + language + "\n" + InlineMarkdown(rt) + "\n" + indent + "```"
    case Divider => "---"
    case Callout(rt, emoji) =>
      "> " + (if emoji != "" then emoji + " " else "") + InlineMarkdown(rt)
    case Image(source, caption) =>
      var alt := InlineMarkdown(caption);
      "![" + (if alt != "" then alt else "image") + "](" + source.url + ")"
    case TableRow(cells) => "| " + Join(" | ", RowCells(cells)) + " |"
    case Unsupported(typeName) => "<!-- Unsupported block type: " + typeName + " -->"
  }

  /** `block_to_md(block, depth)` */
  function BlockMarkdown(b: Block, depth: nat): string
    decreases b, 1
  {
    var indent := Indent(depth);
    match b.kind
    case BulletedListItem(_) => WithNestedItems(ItemLine(b.kind, depth), b, depth)
    case NumberedListItem(_) => WithNestedItems(ItemLine(b.kind, depth), b, depth)
    case ToDo(_, _) => WithNestedItems(ItemLine(b.kind, depth), b, depth)
    case Toggle(rt) =>
      var body := if b.children != [] then "\n" + BlocksMarkdown(b.children, depth, false) + "\n\n" else "";
      Details(indent, InlineMarkdown(rt), body)
    case Table(tableWidth, hasColumnHeader) =>
      TableMarkdown(tableWidth, hasColumnHeader, b.children, depth)
    case _ => indent + LeafBody(b.kind, indent)
  }

  /** A list item's line, followed after one line break by its children
      rendered one level deeper as a tight list, when it has any. */
  function WithNestedItems(line: string, b: Block, depth: nat): string
    decreases b, 0
  {
    if b.children != [] then line + "\n" + BlocksMarkdown(b.children, depth + 1, true) else line
  }

  /** The non-empty renders of `blocks`, in order (the `rendered` list). */
  function Rendered(blocks: seq<Block>, depth: nat): seq<string>
    decreases blocks, 0
  {
    if blocks == [] then []
    else
      var md := BlockMarkdown(blocks[0], depth);
      (if md != "" then [md] else []) + Rendered(blocks[1..], depth)
  }

  /** `blocks_to_markdown(blocks, depth, list_context)` */
  function BlocksMarkdown(blocks: seq<Block>, depth: nat, listContext: bool): string
    decreases blocks, 1
  {
    Join(Separator(listContext), Rendered(blocks, depth))
  }

  // ---------------------------------------------------------------------
  // Properties of one rendered block
  // ---------------------------------------------------------------------

  /** Every rendered block starts with the indentation of its depth; only a
      paragraph can have nothing after it, and then it is the paragraph's
      inline text. */
  lemma BlockStartsWithIndent(b: Block, depth: nat)
    ensures Indent(depth) <= BlockMarkdown(b, depth)
    ensures b.kind.Paragraph? ==> BlockMarkdown(b, depth) == Indent(depth) + InlineMarkdown(b.kind.richText)
    ensures !b.kind.Paragraph? ==> |BlockMarkdown(b, depth)| > |Indent(depth)|
  {
    if b.kind.Table? {
      TableStartsWithIndent(b.kind.tableWidth, b.kind.hasColumnHeader, b.children, depth);
    } else if b.kind.BulletedListItem? || b.kind.NumberedListItem? || b.kind.ToDo? {
      ItemStartsWithIndent(b, depth);
    } else if b.kind.Toggle? {
      ToggleStartsWithIndent(b, depth);
    } else {
      var body := LeafBody(b.kind, Indent(depth));
      PrefixOfConcat(Indent(depth), body);
      assert !b.kind.Paragraph? ==> |body| > 0;
    }
  }

  lemma ToggleStartsWithIndent(b: Block, depth: nat)
    requires b.kind.Toggle?
    ensures Indent(depth) <= BlockMarkdown(b, depth)
    ensures |BlockMarkdown(b, depth)| > |Indent(depth)|
  {
    var body := if b.children != [] then "\n" + BlocksMarkdown(b.children, depth, false) + "\n\n" else "";
    DetailsShape(Indent(depth), InlineMarkdown(b.kind.richText), body);
  }

  /** A `<details>` element starts with its indentation and, with an empty
      body, is exactly the three tag lines. */
  lemma DetailsShape(indent: string, summary: string, body: string)
    ensures indent <= Details(indent, summary, body)
    ensures |Details(indent, summary, body)| > |indent|
    ensures body == "" ==>
              Details(indent, summary, body) == (indent + "<details>") + "\n" + ((indent + "<summary>" + summary + "</summary>") + "\n" + (indent + "</details>"))
  {
    var d := Details(indent, summary, body);
    assert d[..|indent|] == indent;
  }

  lemma PrefixOfConcat(a: string, b: string)
    ensures a <= a + b && |a + b| == |a| + |b|
  {
    assert (a + b)[..|a|] == a;
  }

  lemma ItemStartsWithIndent(b: Block, depth: nat)
    requires b.kind.BulletedListItem? || b.kind.NumberedListItem? || b.kind.ToDo?
    ensures Indent(depth) <= BlockMarkdown(b, depth)
    ensures |BlockMarkdown(b, depth)| > |Indent(depth)|
  {
    var line := ItemLine(b.kind, depth);
    var out := BlockMarkdown(b, depth);
    ItemMarkdown(b, depth);
    if b.children != [] {
      var nested := BlocksMarkdown(b.children, depth + 1, true);
      assert out == line + ("\n" + nested);
      PrefixOfConcat(line, "\n" + nested);
    }
    ItemLineStarts(b.kind, depth);
  }

  /** A list item renders as its line, followed by its nested items. */
  lemma ItemMarkdown(b: Block, depth: nat)
    requires b.kind.BulletedListItem? || b.kind.NumberedListItem? || b.kind.ToDo?
    ensures BlockMarkdown(b, depth) == WithNestedItems(ItemLine(b.kind, depth), b, depth)
  {
  }

  /** An item line is the indentation followed by a non-empty marker. */
  lemma ItemLineStarts(kind: BlockKind, depth: nat)
    requires kind.BulletedListItem? || kind.NumberedListItem? || kind.ToDo?
    ensures Indent(depth) <= ItemLine(kind, depth) && |ItemLine(kind, depth)| > |Indent(depth)|
  {
    var marker :=
      match kind
      case BulletedListItem(_) => "- "
      case NumberedListItem(_) => "1. "
      case ToDo(_, checked) => if checked then "- [x] " else "- [ ] ";
    assert ItemLine(kind, depth) == Indent(depth) + (marker + InlineMarkdown(kind.richText));
    PrefixOfConcat(Indent(depth), marker + InlineMarkdown(kind.richText));
  }


  /** Exactly the empty top-level paragraphs render as "". */
  lemma BlockEmptyIff(b: Block, depth: nat)
    ensures BlockMarkdown(b, depth) == ""
        <==> depth == 0 && b.kind.Paragraph? && InlineMarkdown(b.kind.richText) == ""
  {
    BlockStartsWithIndent(b, depth);
  }

  // ---------------------------------------------------------------------
  // Properties of sibling joining
  // ---------------------------------------------------------------------

  lemma {:induction false} RenderedAppend(xs: seq<Block>, ys: seq<Block>, depth: nat)
    ensures Rendered(xs + ys, depth) == Rendered(xs, depth) + Rendered(ys, depth)
  {
    if xs == [] {
      assert xs + ys == ys;
    } else {
      assert (xs + ys)[1..] == xs[1..] + ys;
      RenderedAppend(xs[1..], ys, depth);
    }
  }

  /** The joined renders are all non-empty, one per block whose render is
      non-empty; below the top level that is every block. */
  lemma {:induction false} RenderedSpec(blocks: seq<Block>, depth: nat)
    ensures forall i :: 0 <= i < |Rendered(blocks, depth)| ==> Rendered(blocks, depth)[i] != ""
    ensures |Rendered(blocks, depth)| <= |blocks|
    ensures depth > 0 ==> |Rendered(blocks, depth)| == |blocks|
    ensures depth > 0 && blocks != [] ==> Rendered(blocks, depth)[0] == BlockMarkdown(blocks[0], depth)
  {
    if blocks != [] {
      RenderedSpec(blocks[1..], depth);
      if depth > 0 {
        BlockEmptyIff(blocks[0], depth);
      }
    }
  }

  /** `a` and `b` joined by `sep`, where an empty side takes no separator. */
  function Glue(sep: string, a: string, b: string): string
  {
    if a == "" then b else if b == "" then a else a + sep + b
  }

  /** Rendering a concatenation of block lists is rendering each list and
      joining the two texts with the separator, unless one is empty: no
      stray separator is ever emitted. */
  lemma BlocksMarkdownAppend(xs: seq<Block>, ys: seq<Block>, depth: nat, listContext: bool)
    ensures BlocksMarkdown(xs + ys, depth, listContext)
         == Glue(Separator(listContext), BlocksMarkdown(xs, depth, listContext), BlocksMarkdown(ys, depth, listContext))
  {
    var sep := Separator(listContext);
    var rx, ry := Rendered(xs, depth), Rendered(ys, depth);
    RenderedAppend(xs, ys, depth);
    RenderedSpec(xs, depth);
    RenderedSpec(ys, depth);
    JoinEmptyIff(sep, rx);
    JoinEmptyIff(sep, ry);
    if rx == [] {
      assert rx + ry == ry;
    } else if ry == [] {
      assert rx + ry == rx;
    } else {
      JoinAppend(sep, rx, ry);
    }
  }

  /** A single block keeps its render exactly when that render is not "". */
  lemma RenderedOne(b: Block, depth: nat)
    ensures Rendered([b], depth) == if BlockMarkdown(b, depth) != "" then [BlockMarkdown(b, depth)] else []
  {
    assert [b][1..] == [];
  }

  /** A block that renders as "" leaves no trace among its siblings. */
  lemma EmptyRenderDropped(xs: seq<Block>, b: Block, ys: seq<Block>, depth: nat, listContext: bool)
    requires BlockMarkdown(b, depth) == ""
    ensures BlocksMarkdown(xs + [b] + ys, depth, listContext) == BlocksMarkdown(xs + ys, depth, listContext)
  {
    var rx, ry := Rendered(xs, depth), Rendered(ys, depth);
    RenderedOne(b, depth);
    assert Rendered([b], depth) == [];
    RenderedAppend(xs, [b], depth);
    assert Rendered(xs + [b], depth) == rx + [] == rx;
    RenderedAppend(xs + [b], ys, depth);
    RenderedAppend(xs, ys, depth);
    assert Rendered(xs + [b] + ys, depth) == Rendered(xs + ys, depth);
  }

  /** A single block is rendered as it is, and a list without blocks is "". */
  lemma SingleBlock(b: Block, depth: nat, listContext: bool)
    ensures BlocksMarkdown([b], depth, listContext) == BlockMarkdown(b, depth)
    ensures BlocksMarkdown([], depth, listContext) == ""
  {
    assert [b][1..] == [];
    var md := BlockMarkdown(b, depth);
    assert Rendered([b], depth) == (if md != "" then [md] else []);
  }

  /** Non-empty sibling lists below the top level render as non-empty text
      starting with the first block's indentation. */
  lemma NestedListStartsWithIndent(blocks: seq<Block>, depth: nat, listContext: bool)
    requires blocks != [] && depth > 0
    ensures Indent(depth) <= BlocksMarkdown(blocks, depth, listContext)
    ensures BlocksMarkdown(blocks, depth, listContext) != ""
  {
    RenderedSpec(blocks, depth);
    JoinStartsWithFirst(Separator(listContext), Rendered(blocks, depth));
    BlockStartsWithIndent(blocks[0], depth);
  }

  // ---------------------------------------------------------------------
  // Per-kind layout
  // ---------------------------------------------------------------------

  /** A list item with children is its own line, one line break, then the
      children one level deeper (two more spaces) as a tight list. */
  lemma ListItemLayout(b: Block, depth: nat)
    requires b.kind.BulletedListItem? || b.kind.NumberedListItem? || b.kind.ToDo?
    requires b.children != []
    ensures var nested := BlocksMarkdown(b.children, depth + 1, true);
            && BlockMarkdown(b, depth) == ItemLine(b.kind, depth) + "\n" + nested
            && Indent(depth + 1) <= nested
  {
    NestedListStartsWithIndent(b.children, depth + 1, true);
  }

  /** A list item without children is exactly its line; a numbered item's
      line always starts with `1. ` after the indentation. */
  lemma ListItemAlone(b: Block, depth: nat)
    requires b.kind.BulletedListItem? || b.kind.NumberedListItem? || b.kind.ToDo?
    requires b.children == []
    ensures BlockMarkdown(b, depth) == ItemLine(b.kind, depth)
    ensures b.kind.NumberedListItem? ==> Indent(depth) + "1. " <= BlockMarkdown(b, depth)
  {
  }

  /** A toggle is a `<details>` element: its first two lines open it and
      name the summary, its last line closes it at the toggle's own
      indentation, and its children sit in between at the SAME depth,
      joined as ordinary blocks and set off by blank lines. */
  lemma ToggleLayout(b: Block, depth: nat)
    requires b.kind.Toggle?
    ensures var indent := Indent(depth);
            var head := indent + "<details>\n" + indent + "<summary>" + InlineMarkdown(b.kind.richText) + "</summary>\n";
            var tail := indent + "</details>";
            BlockMarkdown(b, depth)
              == if b.children == [] then head + tail
                 else head + "\n" + BlocksMarkdown(b.children, depth, false) + "\n\n" + tail
  {
    var indent := Indent(depth);
    var summary := InlineMarkdown(b.kind.richText);
    var head := indent + "<details>\n" + indent + "<summary>" + summary + "</summary>\n";
    var tail := indent + "</details>";
    var inner := BlocksMarkdown(b.children, depth, false);
    var body := if b.children != [] then "\n" + inner + "\n\n" else "";
    ToggleMarkdown(b, depth);
    DetailsSplit(indent, summary, body);
    if b.children == [] {
      assert head + "" + tail == head + tail;
    } else {
      GlueBody(head, inner, tail);
    }
  }

  /** A toggle renders as a `<details>` element around its children. */
  lemma ToggleMarkdown(b: Block, depth: nat)
    requires b.kind.Toggle?
    ensures BlockMarkdown(b, depth)
         == Details(Indent(depth), InlineMarkdown(b.kind.richText),
                    if b.children != [] then "\n" + BlocksMarkdown(b.children, depth, false) + "\n\n" else "")
  {
  }

  lemma GlueBody(head: string, inner: string, tail: string)
    ensures head + ("\n" + inner + "\n\n") + tail == head + "\n" + inner + "\n\n" + tail
  {
  }

  /** A `<details>` element is its two opening lines, the body and the
      closing tag. */
  lemma DetailsSplit(indent: string, summary: string, body: string)
    ensures Details(indent, summary, body)
         == (indent + "<details>\n" + indent + "<summary>" + summary + "</summary>\n") + body + (indent + "</details>")
  {
  }

  /** A toggle without children is exactly three lines when its summary has
      no line break. */
  lemma ChildlessToggleLines(b: Block, depth: nat)
    requires b.kind.Toggle? && b.children == []
    requires '\n' !in InlineMarkdown(b.kind.richText)
    ensures SplitLines(BlockMarkdown(b, depth))
         == [Indent(depth) + "<details>",
             Indent(depth) + "<summary>" + InlineMarkdown(b.kind.richText) + "</summary>",
             Indent(depth) + "</details>"]
  {
    var indent := Indent(depth);
    var summary := InlineMarkdown(b.kind.richText);
    var l1 := indent + "<details>";
    var l2 := indent + "<summary>" + summary + "</summary>";
    var l3 := indent + "</details>";
    DetailsShape(indent, summary, "");
    assert Join("\n", [l3]) == l3;
    assert [l2, l3][1..] == [l3];
    assert Join("\n", [l2, l3]) == l2 + "\n" + l3;
    assert [l1, l2, l3][1..] == [l2, l3];
    assert Join("\n", [l1, l2, l3]) == l1 + "\n" + (l2 + "\n" + l3);
    assert BlockMarkdown(b, depth) == Details(indent, summary, "");
    SplitJoinLines([l1, l2, l3]);
  }

  /** An unsupported kind becomes a visible HTML comment naming it. */
  lemma UnsupportedPlaceholder(b: Block, depth: nat)
    requires b.kind.Unsupported?
    ensures BlockMarkdown(b, depth) == Indent(depth) + "<!-- Unsupported block type: " + b.kind.typeName + " -->"
  {
  }
}
