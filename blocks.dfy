/** The block tree that the fetcher builds and the renderer consumes: one
    content block of a Notion page, its inline rich-text runs and its
    kind-specific payload, as well-typed records rather than JSON objects. */
module Blocks {

  datatype Option<+T> = None | Some(value: T)

  /** The style flags of one rich-text run (its "annotations" object). */
  datatype Annotations = Annotations(
    bold: bool,
    italic: bool,
    strikethrough: bool,
    underline: bool,
    code: bool)

  /** A run without any style flag. */
  const NoAnnotations := Annotations(false, false, false, false, false)

  /** One styled inline text fragment: "plain_text", "href" and "annotations". */
  datatype RichText = RichText(plainText: string, href: Option<string>, annotations: Annotations)

  /** Where an image block's URL comes from: an "external" URL or a file
      hosted by Notion (the "file" payload). */
  datatype ImageSource = External(url: string) | Hosted(url: string)

  /** The block's "type" together with the payload stored under that type's key. */
  datatype BlockKind =
    | Paragraph(richText: seq<RichText>)
    | Heading1(richText: seq<RichText>)
    | Heading2(richText: seq<RichText>)
    | Heading3(richText: seq<RichText>)
    | BulletedListItem(richText: seq<RichText>)
    | NumberedListItem(richText: seq<RichText>)
    | ToDo(richText: seq<RichText>, checked: bool)
    | Quote(richText: seq<RichText>)
    | Code(richText: seq<RichText>, language: string)
    | Divider
    | Callout(richText: seq<RichText>, emoji: string)    // "" when the icon has no emoji
    | Image(source: ImageSource, caption: seq<RichText>)
    | Toggle(richText: seq<RichText>)
    | Table(tableWidth: int, hasColumnHeader: bool)
    | TableRow(cells: seq<seq<RichText>>)
    | Unsupported(typeName: string)                     // any other "type": see WellNamedKind

  /** The "type" strings that the renderer handles, one per constructor
      of BlockKind other than Unsupported. */
  predicate HandledType(name: string)
  {
    name in {"paragraph", "heading_1", "heading_2", "heading_3",
             "bulleted_list_item", "numbered_list_item", "to_do", "quote",
             "code", "divider", "callout", "image", "toggle", "table", "table_row"}
  }

  /** `Unsupported` stands only for a type the renderer does not handle: a
      block whose "type" is handled is always its own constructor. */
  predicate WellNamedKind(k: BlockKind)
  {
    k.Unsupported? ==> !HandledType(k.typeName)
  }

  /** The "type" string of a block of kind `k`. */
  function TypeName(k: BlockKind): string
  {
    match k
    case Paragraph(_) => "paragraph"
    case Heading1(_) => "heading_1"
    case Heading2(_) => "heading_2"
    case Heading3(_) => "heading_3"
    case BulletedListItem(_) => "bulleted_list_item"
    case NumberedListItem(_) => "numbered_list_item"
    case ToDo(_, _) => "to_do"
    case Quote(_) => "quote"
    case Code(_, _) => "code"
    case Divider => "divider"
    case Callout(_, _) => "callout"
    case Image(_, _) => "image"
    case Toggle(_) => "toggle"
    case Table(_, _) => "table"
    case TableRow(_) => "table_row"
    case Unsupported(name) => name
  }

  /** For a well-named kind, the renderer handles its type exactly when the
      kind is not `Unsupported`: a type name selects one constructor. */
  lemma TypeNameHandled(k: BlockKind)
    requires WellNamedKind(k)
    ensures HandledType(TypeName(k)) <==> !k.Unsupported?
  {
  }

  /** A block: its "id" (None when missing), the API's "has_children" flag,
      its kind, and the "children" field that only the fetcher attaches:
      `childrenAttached` says whether the field is present, `children` holds
      its value and is [] when it is absent (`block.get("children", [])`). */
  datatype Block = Block(
    id: Option<string>,
    hasChildren: bool,
    kind: BlockKind,
    children: seq<Block>,
    childrenAttached: bool)

  /** A block whose "children" field is absent has no children to render:
      the renderer reads `children` alone, as `block.get("children", [])`
      does, so an absent field must be the empty list. A child the fetcher
      has expanded satisfies this whenever the child it started from did. */
  predicate ChildrenFieldAgrees(b: Block)
  {
    b.childrenAttached || b.children == []
  }
}
