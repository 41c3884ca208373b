# Notion article export: a verified model

`sync_notion_article.py` turns a Notion page into a Markdown article. This
project models its core in Dafny:

- **Fetching the block tree.** The script lists a block's children page by
  page, following the cursor while `has_more` is set. It then walks the tree,
  descending into every child that has `has_children`. Recursion stops past
  `max_depth` (50). It also stops at a child whose id is missing, empty, or
  already on the path of blocks being expanded. The Notion API is modelled as
  a map from `(block id, start cursor)` to a page of results (`Fetch.PageSource`).
  A request for a key that is not in the map stands for a failed HTTP call
  (`Outcome.Missing`). The fetcher is the class `Fetch.BlockFetcher`. Its
  fields are the requests made so far (`calls`) and the set of ids currently
  being expanded (`activePath`). Each of its methods is proved equal to a
  specification function (`Listing`, `Expand`, `ExpandChild`), and the
  properties of the fetcher are proved as lemmas about those functions.
- **Rendering the blocks.** Rich text becomes inline Markdown (link first, then
  code, bold, italic, strikethrough and underline wraps). Each supported block
  type has its own Markdown form: paragraphs, three heading levels, bulleted,
  numbered and to-do items, quotes, code, dividers, callouts, images, `<details>`
  toggles, tables and lone table rows. Any other type renders as an HTML comment
  placeholder. A nested item is indented by two spaces per level. Sibling
  renders are joined by a blank line, or by a line break inside a list. A render
  that is exactly the empty string is dropped.
- **Helpers.** `slugify`, which lower-cases text, collapses each run of
  non-alphanumerics to one dash and trims dashes, and `rich_text_to_plain`.

Each function of the script is a specification function here, and its
behaviour is stated by the lemmas and methods in the table below:

- `slugify` (`sync_notion_article.py:125-129`) is `Slug.Slugify`, built from
  `Lower`, `DashRuns`, `SquashDashes`, `StripLeft` and `StripRight`.
- `rich_text_to_plain` (`:131-135`) is `RichTextRender.PlainText`, computed by
  the method `RichTextToPlain`.
- `notion_rich_text_to_md` (`:257-278`) is `RichTextRender.InlineMarkdown`,
  one `RunMarkdown` per run, computed by the method `RichTextToMarkdown`.
- `_escape_table_cell` (`:280-281`) is `Tables.EscapeCell`.
- `_render_table_markdown` (`:283-323`) is `Tables.TableMarkdown`, with its
  lines given by `Tables.TableLines`.
- `block_to_md` (`:325-406`) is `Render.BlockMarkdown`, and
  `blocks_to_markdown` (`:408-416`) is `Render.BlocksMarkdown`.
- `fetch_block_children_paginated` (`:176-211`) is the method
  `Fetch.BlockFetcher.FetchChildrenPaginated`, specified by `Fetch.Listing`
  and the bounded cursor chain `Fetch.Chain`.
- `fetch_block_children_recursive` (`:213-241`) is the method
  `Fetch.BlockFetcher.FetchChildrenRecursive`, specified by `Fetch.Expand`,
  its child loop `Fetch.ExpandKids` and one iteration `Fetch.ExpandChild`.
- `fetch_blocks` (`:243-251`) is `Fetch.BlockFetcher.FetchBlocks`.

Modules:

- `Blocks` is the data model: rich-text runs, block kinds and blocks.
- `Text` holds the indentation, repetition, join and line-split helpers.
- `Slug`, `RichTextRender`, `Tables`, `Render` and `Fetch` are the
  operations.
- `Scenarios` restates the repository's unit tests as lemmas about the model.
  These are the two-page nested fetch, the nested toggles, and the tables with
  and without a header row.

## Model

| member | source | states |
|---|---|---|
| Slug.Slugify | sync_notion_article.py:125-129 | the result is a slug: only `a-z`, `0-9` and `-`, no leading, trailing or doubled dash. Its letters and digits are exactly those of the lower-cased input, in order |
| Slug.SlugifyJoinsWords | sync_notion_article.py:125-129 | the slug is the maximal runs of `a-z`/`0-9` of the lower-cased text, in order, joined by single dashes: one dash between two words whatever separated them, none at either end |
| Slug.SlugifyTitle | sync_notion_article.py:125-129 | `"A b"` slugifies to `"a-b"` |
| Slug.SlugifyIdempotent | sync_notion_article.py:125-129 | slugifying a slug again changes nothing |
| Slug.SlugifyFixesSlugs | sync_notion_article.py:125-129 | every well-formed slug is its own slug |
| Slug.SlugOfNoAlnumIsEmpty | sync_notion_article.py:125-129 | text with no ASCII letter or digit after lower-casing slugifies to the empty string |
| Slug.SlugAlphabetFirstSlugChar | sync_notion_article.py:125-129 | a non-empty slug contains at least one letter or digit |
| Slug.DashRunsShape | sync_notion_article.py:127 | replacing each run of non-alphanumerics by one dash leaves only slug characters, never two dashes in a row, and keeps the letters and digits |
| Slug.SquashDashesKeeps | sync_notion_article.py:128 | the second `-+` substitution changes nothing once runs have already been collapsed |
| Slug.StripKeepsSlugShape | sync_notion_article.py:129 | trimming dashes from both ends yields a slug and loses no letter or digit |
| Slug.StripLeft | sync_notion_article.py:129 | removes exactly the leading dashes: what is cut is all dashes and the rest does not start with one |
| Slug.StripRight | sync_notion_article.py:129 | removes exactly the trailing dashes: what is cut is all dashes and the rest does not end with one |
| Slug.LowerKeepsSlugAlphabet | sync_notion_article.py:126 | lower-casing leaves text made of slug characters unchanged |
| RichTextRender.RichTextToPlain | sync_notion_article.py:131-135 | the accumulating loop returns the runs' plain texts concatenated in order |
| RichTextRender.PlainTextAppend | sync_notion_article.py:131-135 | the plain text of two run lists is the concatenation of their plain texts |
| RichTextRender.RichTextToMarkdown | sync_notion_article.py:257-278 | the loop returns the concatenation of each run's Markdown, in order |
| RichTextRender.InlineMarkdownAppend | sync_notion_article.py:257-278 | rendering distributes over concatenation of run lists |
| RichTextRender.RunMarkdownNesting | sync_notion_article.py:263-276 | a run renders as its (possibly linked) text between the opening markers of its set flags, underline outermost and code innermost, and the matching closers in reverse order |
| RichTextRender.UnstyledRunsRenderPlain | sync_notion_article.py:257-278 | for runs with no link and no style, the Markdown and plain-text helpers agree |
| RichTextRender.MarkdownCoversPlainText | sync_notion_article.py:257-278 | the Markdown of runs is never shorter than their plain text |
| RichTextRender.BoldCodeNesting | sync_notion_article.py:265-268 | bold code renders as `` **`text`** `` |
| RichTextRender.AllFlagsNesting | sync_notion_article.py:263-276 | with every flag and a link, the link is innermost and underline outermost |
| Tables.EscapeCellSpec | sync_notion_article.py:280-281 | an escaped cell has no line break and no unescaped pipe. It has as many pipes as the input, and its length grows by one per pipe and three per line break. A cell with neither is unchanged |
| Tables.EscapeCellByChar | sync_notion_article.py:280-281 | the two chained replacements act character by character |
| Tables.TableRowsAppend | sync_notion_article.py:286-295 | the rows of a table come from its `table_row` children in order |
| Tables.LongestRow | sync_notion_article.py:297 | the inferred width bounds every row and is attained by one (0 for no rows) |
| Tables.TableWidth | sync_notion_article.py:297-298 | the width is not negative, at least the declared width and every row's length, and equals the declared width, some row's length, or 0 when there are no rows |
| Tables.Pad | sync_notion_article.py:302-304 | a padded row has exactly the table width, keeps its cells and is filled with empty cells |
| Tables.TableLinesContent | sync_notion_article.py:306-321 | the lines are a header row, then the `---` separator, then the data rows, padded to the width. The header is the first row when a column header is declared and rows exist, otherwise it is blank |
| Tables.TableShape | sync_notion_article.py:283-323 | a table of positive width renders as 2 + rows - (1 if the first row is the header) lines. Every line has exactly `width` columns |
| Tables.TableLineShape | sync_notion_article.py:316-323 | each line of a table has `width` columns and no line break |
| Tables.RowLineShape | sync_notion_article.py:316-321 | a row line of escaped cells has one column per cell |
| Tables.JoinedCellBorders | sync_notion_article.py:316-321 | joining n escaped cells with ` \| ` creates exactly n-1 column borders |
| Tables.TableRowsEscaped | sync_notion_article.py:290-295 | every cell that reaches the table is escaped |
| Tables.RowCellsEscaped | sync_notion_article.py:290-295 | a row has one cell string per rich-text cell, and every cell has no unescaped pipe and no line break |
| Tables.EmptyTableIff | sync_notion_article.py:299-300 | a table renders as the `<table></table>` placeholder if and only if its width is not positive |
| Tables.NonRowChildrenIgnored | sync_notion_article.py:286 | children that are not table rows do not change the table |
| Tables.TableStartsWithIndent | sync_notion_article.py:283-323 | a table render starts with its indentation and has content after it |
| Text.Indent | sync_notion_article.py:328 | the indentation is two spaces per depth level |
| Text.JoinAppend | sync_notion_article.py:416 | joining two non-empty lists puts one separator between their joins |
| Text.JoinEmptyIff | sync_notion_article.py:416 | a join of non-empty strings is empty if and only if the list is |
| Text.SplitJoinLines | sync_notion_article.py:323 | splitting at line breaks undoes `"\n".join` of break-free lines |
| Text.JoinStartsWithFirst | sync_notion_article.py:416 | a join starts with its first part |
| Render.BlockStartsWithIndent | sync_notion_article.py:325-406 | every block render starts with its indentation. A paragraph is exactly indentation plus inline text, and every other type adds content after the indentation |
| Render.BlockEmptyIff | sync_notion_article.py:325-413 | a block renders as the empty string if and only if it is a top-level paragraph with empty text, so only those are dropped |
| Render.ListItemLayout | sync_notion_article.py:340-361 | an item with children is its marker line, a line break, then its children rendered one level deeper with line-break separators. That nested part starts with the deeper indentation |
| Render.ListItemAlone | sync_notion_article.py:340-361 | an item without children is its marker line alone (`- `, `1. `, `- [x] ` or `- [ ] `) |
| Render.ItemStartsWithIndent | sync_notion_article.py:340-361 | an item render starts with its indentation |
| Render.ToggleLayout | sync_notion_article.py:390-396 | a toggle is a `<details>` element with its text as `<summary>`. Its children are rendered at the same depth between blank lines, or there is no body when it has none |
| Render.ToggleStartsWithIndent | sync_notion_article.py:390-396 | a toggle starts with its indentation |
| Render.DetailsShape | sync_notion_article.py:394-396 | a `<details>` element starts with its indentation, and without a body it is the three tag lines |
| Render.ChildlessToggleLines | sync_notion_article.py:396 | a childless toggle with single-line summary is exactly three lines |
| Render.UnsupportedPlaceholder | sync_notion_article.py:406 | an unknown type renders as an indented HTML comment naming the type |
| Blocks.TypeNameHandled | sync_notion_article.py:326-406 | for a kind whose `Unsupported` name is not a handled type, the renderer handles its type name exactly when the kind is not `Unsupported` |
| Render.RenderedSpec | sync_notion_article.py:408-413 | the kept renders are non-empty and at most one per block. Below the top level none is dropped and the first one is the first block's |
| Render.RenderedOne | sync_notion_article.py:410-413 | a block's render is kept exactly when it is not the empty string |
| Render.RenderedAppend | sync_notion_article.py:408-413 | the kept renders of two block lists are the kept renders of each, in order |
| Render.BlocksMarkdownAppend | sync_notion_article.py:408-416 | rendering a concatenation glues the two renders with the separator, skipping it when either is empty |
| Render.EmptyRenderDropped | sync_notion_article.py:411-413 | a block whose render is empty leaves the document unchanged |
| Render.SingleBlock | sync_notion_article.py:408-416 | one block renders as that block's render, and no blocks as the empty string |
| Render.NestedListStartsWithIndent | sync_notion_article.py:408-416 | below the top level a non-empty block list renders non-empty and starts with its indentation |
| Fetch.BlockFetcher.constructor | sync_notion_article.py:213-224 | a fresh fetcher has made no requests and has an empty active path |
| Fetch.BlockFetcher.List | sync_notion_article.py:188-204 | one request is recorded. The page for that key is returned, or `Missing` when the key is not served |
| Fetch.BlockFetcher.FetchChildrenPaginated | sync_notion_article.py:176-211 | the loop returns what the cursor chain `Listing` returns and records exactly its requests |
| Fetch.BlockFetcher.FetchChildrenRecursive | sync_notion_article.py:213-241 | the result, the requests and the active path after the call are those of `Expand`. Past `max_depth` the result is empty and no request is made |
| Fetch.BlockFetcher.FetchChild | sync_notion_article.py:225-239 | one iteration of the child loop agrees with `ExpandChild` |
| Fetch.BlockFetcher.FetchBlocks | sync_notion_article.py:243-251 | fetching a page is the expansion from depth 0 with limit 50 and an empty path |
| Fetch.ChainShape | sync_notion_article.py:186-211 | the first request has no cursor. Each request whose page has `has_more` is followed by one with that page's cursor. A successful listing ends on a page without `has_more` and returns every page's results in order. A failure is the last request, for a key not served |
| Fetch.ChainCallsDistinct | sync_notion_article.py:187-209 | a terminating listing never repeats a request |
| Fetch.ChainEndsWithinPages | sync_notion_article.py:187-209 | a terminating listing makes at most one request more than the source has pages, so that many rounds always suffice |
| Fetch.ChainFuelMono | sync_notion_article.py:187-209 | once a listing ends, allowing more rounds does not change it |
| Fetch.ChainTight | sync_notion_article.py:187-209 | a listing uses exactly as many rounds as requests |
| Fetch.ChainSuffix | sync_notion_article.py:187-209 | every tail of a listing is the listing from that request's cursor |
| Fetch.ChainAdvance | sync_notion_article.py:206-209 | a page with `has_more` moves its results and its request from the rest of the chain to what is collected, and the chain goes on from its cursor within one round less |
| Fetch.ChainStops | sync_notion_article.py:199-208 | the loop ends at a request that is not served, with that failure, or at a page without `has_more`, with everything collected plus that page |
| Fetch.ListingCallsFor | sync_notion_article.py:188-204 | every request of a listing is for the listed block |
| Fetch.ExpandPath | sync_notion_article.py:221-239 | the active path only grows during a fetch, and a successful fetch gives it back unchanged |
| Fetch.ExpandKidsPath | sync_notion_article.py:225-239 | the same for the loop over children |
| Fetch.ExpandChildPath | sync_notion_article.py:231-239 | the same for one child: added before the descent, removed after a successful one |
| Fetch.ExpandSkipsAncestors | sync_notion_article.py:225-239 | no request is made for a block on the active path, except the block being fetched |
| Fetch.ExpandKidsSkipsAncestors | sync_notion_article.py:225-239 | the children loop requests no block on the path it started with |
| Fetch.ExpandChildSkipsAncestors | sync_notion_article.py:227-239 | descending into a child requests no block on the path |
| Fetch.ExpandKidsShape | sync_notion_article.py:225-241 | a successful loop returns the listed children in order, one for one. A child without `has_children` is unchanged, a guarded one gets an empty child list, and any other gets its fetched children |
| Fetch.ChildExpandedStep | sync_notion_article.py:227-230 | a child with a missing, empty or already active id gets `children = []` without any request |
| Fetch.ExpandChildKeepsChildrenField | sync_notion_article.py:225-239 | a child that went through the loop carries the `children` field whenever it has `has_children`, and a child without the field has no children |
| Fetch.KidsStep | sync_notion_article.py:225-239 | the loop advances over one child that succeeded |
| Fetch.KidsStepFails | sync_notion_article.py:225-239 | the loop ends with the first failure |
| Scenarios.NestedFetch | tests/test_notion_export_blocks.py:38-104 | with the test's four pages, fetching `page-1` returns its two top-level blocks. The toggle holds the heading, which holds the paragraph. The requests are `(page-1, None)`, `(page-1, cursor-1)`, `(toggle-1, None)` and `(heading-1, None)`, in that order |
| Scenarios.NestedSourceChainsEnd | tests/test_notion_export_blocks.py:39-88 | every cursor chain of the test's source ends |
| Scenarios.PageListing | tests/test_notion_export_blocks.py:40-63 | the top page is listed in two requests |
| Scenarios.ToggleExpansion | tests/test_notion_export_blocks.py:64-87 | the toggle's subtree is fetched with two requests |
| Scenarios.HeadingExpansion | tests/test_notion_export_blocks.py:76-87 | the heading's paragraph is fetched with one request |
| Scenarios.NestedToggles | tests/test_notion_export_blocks.py:106-142 | the nested-toggle fixture renders as nested `<details>` elements with the expected summaries and paragraphs |
| Scenarios.TopToggle | sync_notion_article.py:390-395 | a top-level toggle with children renders as its summary line, a blank line, the body, a blank line and the closing tag |
| Scenarios.PlainParagraph | sync_notion_article.py:330-331 | an unstyled top-level paragraph renders as its text |
| Scenarios.HeaderTable | tests/test_notion_export_blocks.py:144-192 | the header table renders exactly as the header, separator and two data lines the test looks for |
| Scenarios.HeaderlessTable | tests/test_notion_export_blocks.py:194-232 | the header-less table gets a blank header `\|  \|  \|  \|` and no synthetic column labels, then its two data lines |
| Scenarios.FullWidthTable | sync_notion_article.py:297-321 | rows that already have the declared width are not padded, and the lines are header, separator and data rows |

## Left out

- HTTP: the `requests` and `notion-client` calls, the error prints and `raise_for_status`. A failed request is the `Missing` outcome. The model stops there, as the exception would.
- `fetch_blocks` goes over HTTP, while the unit tests pass a client object. Both are the same page source here.
- The page size of 100 in each request is not modelled. Nothing is proved about how many requests a listing makes beyond the chain's own shape.
- Fetch.BlockFetcher.FetchChildrenPaginated requires that the block's cursor chain ends (`PaginationEnds`). The recursive fetch requires it of every block id, including ids it never visits (`AllChainsEnd`). A source whose pages cycle, or that sets `has_more` with no usable cursor, makes the loop run forever. The model does not describe that divergence.
- The mutation of the listed child dictionaries (`child["children"] = …`) and the mutation of the shared `active_path` set are modelled on values. Aliasing between dictionaries is not captured. A client that hands out the same dictionary objects on every request makes a difference. Take page `page-1` with child `A`, whose child `P` has the id `page-1`. The call for `page-1` puts `A` on the active path and descends. The call for `A` puts `page-1` on the path, since the page itself never is, and descends into `P`. The call for `page-1` at depth 2 lists the same dictionary `A` again, finds its id on the path and sets `A["children"] = []` (`:228`). Back at depth 1, `P["children"] = [A]` (`:232`). Back at depth 0, `A["children"]` is overwritten with `[P]` (`:232`). The Python tree becomes cyclic, while in the model the inner `A` keeps `[]`.
- Blocks that come back from the API without a `children` key are modelled by `childrenAttached = false`.
- Absent payload fields (`dict.get` defaults, an absent icon, a `rich_text` the renderer reads as `rt_array or []`) are represented by empty strings, `None` options and empty lists. A block type and its payload are one `BlockKind`.
- JSON `null` values: the source raises wherever it calls `.get` on, iterates over or joins a `null`. That happens for a `null` payload in the `data.get` branches (`sync_notion_article.py:330-377` and `:390-391`: paragraph, headings, list items, to-do, quote, code, callout, toggle), a `null` callout icon (`:374-375`), a `null` `"table_row"` of a lone row (`:402`) or of a row inside a table (`:290`), a `null` `"external"` or `"file"` object of an image (`:383`, `:385`), a `null` `"children"` of a table (`:286`), and a `null` `"plain_text"` of a run with no link and no style flag, which reaches `"".join` (`:278`). A `null` payload renders normally elsewhere. An image reads `data or {}` (`:379`), a table reads `.get("table", {}) or {}` (`:285`), and dividers (`:370-371`) and unsupported types (`:406`) never read the payload. The model has no null values, so it has no raising case.
- A block of a handled type is always its own `BlockKind` constructor. `Unsupported` is meant only for other type names (`Blocks.WellNamedKind`), and the datatype itself does not force this.
- A block whose `children` field is absent is expected to have `children == []` (`Blocks.ChildrenFieldAgrees`); the datatype itself does not force this.
- Slug.Slugify: `str.lower()` is modelled for ASCII letters and the two non-ASCII characters that lower-case to ASCII letters (KELVIN SIGN and LATIN CAPITAL LETTER I WITH DOT ABOVE). Every other character is treated as unchanged by lower-casing. Full Unicode case mapping is not modelled.
- Depths and limits are natural numbers. A negative `depth` or `max_depth` is not modelled.
- `query_data_source`, `resolve_data_source_id`, `ensure_API_config`, `write_article_file` and `main` (configuration, the interactive prompt, front matter and file output) are not part of this model. Neither is the older copy under `_site/`.
- Behaviour worth knowing, modelled as the code has it:
  - Only renders that are exactly `""` are dropped. A nested empty paragraph still yields its indentation.
  - `active_path` is restored only on success, because there is no `finally`. After a failure the path keeps the ids that were being expanded (`Fetch.ExpandPath`).
  - The id of the page being fetched is never put on the active path.
