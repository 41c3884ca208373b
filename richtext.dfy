/** The two rich-text helpers: `rich_text_to_plain` (the titles' plain text)
    and `notion_rich_text_to_md` (inline Markdown with link and style
    wrapping). Each is given as a function, which the renderer uses, and as
    the source's accumulating loop, proved to compute that function. */
module RichTextRender {
  import opened Blocks

  /** `rich_text_to_plain(runs)`: the runs' plain text, concatenated. */
  function PlainText(runs: seq<RichText>): string
  {
    if runs == [] then "" else runs[0].plainText + PlainText(runs[1..])
  }

  lemma {:induction false} PlainTextAppend(a: seq<RichText>, b: seq<RichText>)
    ensures PlainText(a + b) == PlainText(a) + PlainText(b)
  {
    if a == [] {
      assert a + b == b;
    } else {
      assert (a + b)[1..] == a[1..] + b;
      PlainTextAppend(a[1..], b);
    }
  }

  /** The loop of `rich_text_to_plain`. */
  method RichTextToPlain(runs: seq<RichText>) returns (s: string)
    ensures s == PlainText(runs)
  {
    s := "";
    for i := 0 to |runs|
      invariant s == PlainText(runs[..i])
    {
      assert runs[..i + 1] == runs[..i] + [runs[i]];
      PlainTextAppend(runs[..i], [runs[i]]);
      s := s + runs[i].plainText;
    }
    assert runs[..|runs|] == runs;
  }

  /** `if href:` -- an empty link target counts as none. */
  predicate HasLink(rt: RichText)
  {
    rt.href.Some? && rt.href.value != ""
  }

  /** The first wrap: `[text](href)` when the run has a link. */
  function LinkText(rt: RichText): string
  {
    if HasLink(rt) then "[" + rt.plainText + "](" + rt.href.value + ")" else rt.plainText
  }

  /** `marker` when `flag` is set, nothing otherwise. */
  function Marker(flag: bool, marker: string): string
  {
    if flag then marker else ""
  }

  /** One conditional wrap of `notion_rich_text_to_md`: `f"{open}{text}{close}"` when the flag is set. */
  function WrapIf(flag: bool, open: string, text: string, close: string): string
  {
    if flag then open + text + close else text
  }

  /** The opening markers of a run's style wraps, outermost first. */
  function Openers(a: Annotations): string
  {
    Marker(a.underline, "<u>") + (Marker(a.strikethrough, "~~") + (Marker(a.italic, "*") +
    (Marker(a.bold, "**") + Marker(a.code, "`"))))
  }

  /** The closing markers of a run's style wraps, innermost first. */
  function Closers(a: Annotations): string
  {
    (((Marker(a.code, "`") + Marker(a.bold, "**")) + Marker(a.italic, "*")) +
    Marker(a.strikethrough, "~~")) + Marker(a.underline, "</u>")
  }

  /** One run of `notion_rich_text_to_md`: the link wrap, then backticks,
      `**`, `*`, `~~` and `<u>`, each enclosing the previous ones. */
  function RunMarkdown(rt: RichText): string
  {
    var a := rt.annotations;
    var coded := WrapIf(a.code, "`", LinkText(rt), "`");
    var bolded := WrapIf(a.bold, "**", coded, "**");
    var slanted := WrapIf(a.italic, "*", bolded, "*");
    var struck := WrapIf(a.strikethrough, "~~", slanted, "~~");
    WrapIf(a.underline, "<u>", struck, "</u>")
  }

  /** A wrap around text that already sits between markers adds its own
      marker outside them. */
  lemma WrapIfOutside(flag: bool, open: string, text: string, pre: string, core: string, post: string, close: string)
    requires text == pre + core + post
    ensures WrapIf(flag, open, text, close)
         == (Marker(flag, open) + pre) + core + (post + Marker(flag, close))
  {
  }

  /** The fixed wrap order, stated flat: a rendered run is its linked text
      between the markers of its set flags, opened underline-first and
      closed code-first. */
  lemma RunMarkdownNesting(rt: RichText)
    ensures RunMarkdown(rt) == Openers(rt.annotations) + LinkText(rt) + Closers(rt.annotations)
  {
    var a := rt.annotations;
    var t := LinkText(rt);
    var o1, c1 := Marker(a.code, "`"), Marker(a.code, "`");
    var s1 := WrapIf(a.code, "`", t, "`");
    assert s1 == o1 + t + c1;
    var s2 := WrapIf(a.bold, "**", s1, "**");
    WrapIfOutside(a.bold, "**", s1, o1, t, c1, "**");
    var o2, c2 := Marker(a.bold, "**") + o1, c1 + Marker(a.bold, "**");
    var s3 := WrapIf(a.italic, "*", s2, "*");
    WrapIfOutside(a.italic, "*", s2, o2, t, c2, "*");
    var o3, c3 := Marker(a.italic, "*") + o2, c2 + Marker(a.italic, "*");
    var s4 := WrapIf(a.strikethrough, "~~", s3, "~~");
    WrapIfOutside(a.strikethrough, "~~", s3, o3, t, c3, "~~");
    var o4, c4 := Marker(a.strikethrough, "~~") + o3, c3 + Marker(a.strikethrough, "~~");
    var s5 := WrapIf(a.underline, "<u>", s4, "</u>");
    WrapIfOutside(a.underline, "<u>", s4, o4, t, c4, "</u>");
    var o5, c5 := Marker(a.underline, "<u>") + o4, c4 + Marker(a.underline, "</u>");
    assert s5 == o5 + t + c5;
    assert RunMarkdown(rt) == s5;
  }

  /** `notion_rich_text_to_md(runs)`: the rendered runs, concatenated. */
  function InlineMarkdown(runs: seq<RichText>): string
  {
    if runs == [] then "" else RunMarkdown(runs[0]) + InlineMarkdown(runs[1..])
  }

  lemma {:induction false} InlineMarkdownAppend(a: seq<RichText>, b: seq<RichText>)
    ensures InlineMarkdown(a + b) == InlineMarkdown(a) + InlineMarkdown(b)
  {
    if a == [] {
      assert a + b == b;
    } else {
      assert (a + b)[1..] == a[1..] + b;
      InlineMarkdownAppend(a[1..], b);
    }
  }

  /** The loop of `notion_rich_text_to_md`. */
  method RichTextToMarkdown(runs: seq<RichText>) returns (s: string)
    ensures s == InlineMarkdown(runs)
  {
    s := "";
    for i := 0 to |runs|
      invariant s == InlineMarkdown(runs[..i])
    {
      assert runs[..i + 1] == runs[..i] + [runs[i]];
      InlineMarkdownAppend(runs[..i], [runs[i]]);
      s := s + RunMarkdown(runs[i]);
    }
    assert runs[..|runs|] == runs;
  }

  /** Runs with no link and no style flag render as their plain text, so the
      Markdown and the plain-text helpers agree on unformatted text. */
  lemma {:induction false} UnstyledRunsRenderPlain(runs: seq<RichText>)
    requires forall i :: 0 <= i < |runs| ==> !HasLink(runs[i]) && runs[i].annotations == NoAnnotations
    ensures InlineMarkdown(runs) == PlainText(runs)
  {
    if runs != [] {
      UnstyledRunsRenderPlain(runs[1..]);
    }
  }

  /** The rendered text is never shorter than the plain text. */
  lemma {:induction false} MarkdownCoversPlainText(runs: seq<RichText>)
    ensures |InlineMarkdown(runs)| >= |PlainText(runs)|
  {
    if runs != [] {
      MarkdownCoversPlainText(runs[1..]);
      RunMarkdownNesting(runs[0]);
    }
  }

  /** Bold and code together give `**` outside the backticks. */
  lemma BoldCodeNesting(text: string)
    ensures RunMarkdown(RichText(text, None, NoAnnotations.(bold := true, code := true)))
         == "**`" + text + "`**"
  {
  }

  /** All flags and a link: the link is innermost, underline outermost. */
  lemma AllFlagsNesting(text: string, href: string)
    requires href != ""
    ensures RunMarkdown(RichText(text, Some(href), Annotations(true, true, true, true, true)))
         == "<u>~~***`[" + text + "](" + href + ")`***~~</u>"
  {
    var rt := RichText(text, Some(href), Annotations(true, true, true, true, true));
    RunMarkdownNesting(rt);
    assert Openers(rt.annotations) == "<u>~~***`";
    assert Closers(rt.annotations) == "`***~~</u>";
    assert LinkText(rt) == "[" + text + "](" + href + ")";
  }
}
