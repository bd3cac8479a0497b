# Markdown-to-HTML renderer, modelled in Dafny

This project models the rendering half of a small Markdown-to-HTML converter written in Rust
(`src/lib.rs`). A pest parser turns Markdown text into a tree of pairs; each pair carries a
rule tag, the text it matched and its inner pairs. The renderer walks that tree depth-first:

- `convert_pair_to_html` emits HTML for each rule with `format!`;
- `convert_inner_to_html` concatenates the renders of a pair's children in order;
- `parse_to_html` runs the parser and either joins the renders of the top-level pairs or
  returns `"Parse error: "` followed by the parser's message.

The project has four modules, one per file:

- `text.dfy` (module `Text`) holds the parts of Rust's standard library the renderer relies on:
  - `char::is_whitespace`, with the full Unicode White_Space set;
  - `str::trim`, with its trim-start and trim-end halves;
  - `str::len`, as a count of UTF-8 bytes;
  - decimal printing of an unsigned integer.

  The module proves what trimming removes and keeps, that trimming is idempotent, and that
  printed decimals read back to the same number.
- `render.dfy` (module `Markdown`) holds the data and the renderer:
  - the tree is `datatype Node = Node(rule, text, children)`: `as_str()` becomes `text`,
    `into_inner()` becomes `children`;
  - `Render` is `convert_pair_to_html`, and `RenderAll` is the concatenation that
    `convert_inner_to_html` builds;
  - the two `for` loops that push onto a mutable `String` are the methods
    `ConvertInnerToHtml` and `ParseToHtml`, each proved against `RenderAll`;
  - the parser is a function parameter that returns either a sequence of nodes or an error
    message.
- `render_laws.dfy` (module `MarkdownLaws`) proves what each rule contributes to the output.
  Most lemmas relate renders to one another or to a separately defined expectation:
  transparency of wrappers, splitting of sibling runs, nesting of tags, line endings and
  trimmed bodies. A few small helpers (`PassThroughRender`, `FallbackRender`,
  `InlineWrappers`) only unfold one arm of `Render` for use in other proofs.
- `lib_tests.dfy` (module `LibTests`) restates the six unit tests of `src/lib.rs`. Each one
  uses a hand-built tree ASSUMED for the test input, because the grammar is not part of this
  model. It proves the exact output for each such tree.

The `unwrap` calls that take a header's or a list point's first two children panic when
those children are missing. The predicate `Renderable` states when no such panic happens.
It follows exactly the subtrees the renderer visits, and it is the precondition of
`Render`, `ConvertInnerToHtml` and `ParseToHtml`.

## Model

| member | source | states |
|---|---|---|
| Markdown.Renderable | src/lib.rs:38-69 | no `unwrap` on the path the renderer takes panics: every header and list point it visits has a second child. The contract states that every tree where every header and list point has at least two children is renderable |
| Markdown.Render | src/lib.rs:29-96 | definition (no contract of its own): one arm per rule, as in `convert_pair_to_html`. Its properties are the `MarkdownLaws` lemmas |
| Markdown.RenderAll | src/lib.rs:21-27 | definition (no contract of its own): the in-order concatenation of the renders of a sibling run, which the loops are proved to compute |
| Markdown.ConvertInnerToHtml | src/lib.rs:21-27 | the loop leaves `html` equal to the in-order concatenation of the renders of every child |
| Markdown.ParseToHtml | src/lib.rs:8-19 | on parser success the result is `Ok` of the in-order concatenation of the top-level renders; on failure it is `Err("Parse error: " + message)`, with no partial HTML |
| Markdown.RenderAllAppend | src/lib.rs:21-27 | concatenating child renders distributes over splitting the list of children |
| MarkdownLaws.PassThroughTransparent | src/lib.rs:31-36 | a pass-through node with one child renders exactly as that child |
| MarkdownLaws.PassThroughConcat | src/lib.rs:31-36 | splitting a pass-through node's children splits its output at the same place, with no separator added |
| MarkdownLaws.FallbackAsBlock | src/lib.rs:92-94 | a node of any rule the renderer does not name renders exactly as a `block` node with the same children, whatever its own text, and never panics when its children do not |
| MarkdownLaws.FallbackTransparent | src/lib.rs:92-94 | a node of an unnamed rule around a single child renders exactly as that child |
| MarkdownLaws.FallbackLeafInvisible | src/lib.rs:92-94 | a childless node of an unnamed rule, such as pest's end-of-input pair, leaves the render of any sibling run unchanged wherever it is inserted |
| MarkdownLaws.HeaderLevel | src/lib.rs:38-47 | a header whose marker is `k` hashes padded by whitespace renders as `<hK>` + content + `</hK>\n`, with K the decimal of `k`; for levels 1 to 6 that is one digit |
| MarkdownLaws.HeaderIgnoresExtraChildren | src/lib.rs:38-47 | only the first two children of a header are read; the header's own text and any further children do not change the output |
| MarkdownLaws.ListPointIgnoresMarker | src/lib.rs:56-69 | list points with the same content child render identically, whatever their marker, their text and whether the list is ordered |
| MarkdownLaws.RenderAllPoints | src/lib.rs:56-69 | a run of list points renders as one untrimmed `<li>…</li>\n` line per point, in order |
| MarkdownLaws.TrimItems | src/lib.rs:49-50 | trimming a non-empty run of `<li>` lines removes only the final newline |
| MarkdownLaws.ListOfPoints | src/lib.rs:48-55 | a non-empty list of points renders as `<ul>\n` (or `<ol>\n`), then its `<li>` lines, then `</ul>\n` (or `</ol>\n`) |
| MarkdownLaws.ListBodyTrimmed | src/lib.rs:48-55 | for any children, the text between the list's opening and closing tag lines neither starts nor ends with whitespace |
| MarkdownLaws.BlockEndsLine | src/lib.rs:38-73 | every header, list, list point and paragraph renders to text ending in a line break |
| MarkdownLaws.RenderAllEndsLine | src/lib.rs:21-27 | a sibling run whose last node is block-level renders to complete lines |
| MarkdownLaws.ParagraphStripsPadding | src/lib.rs:70-73 | a paragraph whose lines render to whitespace + m + whitespace, with m trimmed, renders as `<p>` + m + `</p>\n` |
| MarkdownLaws.ParagraphBodyTrimmed | src/lib.rs:70-73 | a paragraph body neither starts nor ends with whitespace, and trimming it again changes nothing |
| MarkdownLaws.BoldItalicAsNested | src/lib.rs:74-85 | a `bold_italic` node renders the same as an `italic` node nested inside a `bold` node |
| MarkdownLaws.InlineHasNoNewline | src/lib.rs:74-91 | inline wrappers over leaves without line breaks produce no line break |
| MarkdownLaws.InlineAllHaveNoNewline | src/lib.rs:21-27 | a sequence of such inline nodes renders without a line break |
| MarkdownLaws.LeavesVerbatim | src/lib.rs:86-91 | any run of `char` and `WHITESPACE` leaves, with any texts, renders to exactly the concatenation of their matched texts, with no HTML escaping |
| Text.TrimStartSpec | src/lib.rs:43 | `trim_start` keeps a suffix, drops only whitespace and stops at the first non-whitespace character |
| Text.TrimEndSpec | src/lib.rs:43 | `trim_end` keeps a prefix, drops only whitespace and stops at the last non-whitespace character |
| Text.TrimIsTrimmed | src/lib.rs:72 | the result of `trim` neither starts nor ends with whitespace |
| Text.TrimSplits | src/lib.rs:72 | `trim` returns the infix of its input between an all-whitespace prefix and an all-whitespace suffix |
| Text.TrimOfPadded | src/lib.rs:50 | `trim` of whitespace + m + whitespace, with m trimmed, is exactly m |
| Text.TrimIdempotent | src/lib.rs:72 | trimming twice equals trimming once |
| Text.AsciiByteLen | src/lib.rs:43 | on ASCII text, `len` (bytes) equals the character count |
| Text.Decimal | src/lib.rs:46 | the printed level is a non-empty string of digits without a leading zero, one digit long exactly when the number is below 10 |
| Text.DecimalRoundTrip | src/lib.rs:46 | reading the printed digits back gives the number, so distinct levels print distinct tags |
| LibTests.HeaderOfLine | src/lib.rs:38-47 | a level-`k` header over any leaf run spelling a text, alone in a document, renders to `<hK>` + text + `</hK>\n` |
| LibTests.InlineParagraph | src/lib.rs:70-85 | a one-line paragraph of leaf-run text, one inline node and leaf-run text renders its pieces in document order inside `<p>`…`</p>\n` |
| LibTests.TwoPointList | src/lib.rs:48-69 | a two-point list over leaf-run lines renders as its tags around the two `<li>` lines |
| LibTests.SimpleHeader | src/lib.rs:103-108 | the tree assumed for `"# Hello World\n"` renders to `<h1>Hello World</h1>\n` |
| LibTests.BoldText | src/lib.rs:110-115 | the tree assumed for `"This is **bold** text\n"` renders to `<p>This is <strong>bold</strong> text</p>\n` |
| LibTests.ItalicText | src/lib.rs:117-122 | the tree assumed for `"This is *italic* text\n"` renders to `<p>This is <em>italic</em> text</p>\n` |
| LibTests.UnorderedListTest | src/lib.rs:124-132 | the tree assumed for `"- Point 1\n- Point 2\n"` renders to exactly `<ul>\n<li>Point 1</li>\n<li>Point 2</li>\n</ul>\n` |
| LibTests.OrderedListTest | src/lib.rs:134-142 | the tree assumed for `"1. First point\n2. Second point\n"` renders to exactly `<ol>\n<li>First point</li>\n<li>Second point</li>\n</ol>\n` |
| LibTests.BoldItalicCombined | src/lib.rs:144-149 | the tree assumed for `"This is ***bold and italic*** text\n"` renders to `<p>This is <strong><em>bold and italic</em></strong> text</p>\n` |

## Left out

- `src/main.rs` is not part of this model. It only handles the command line, file reading and writing, printing, and process exit around `parse_to_html`.
- The pest grammar and the generated parser are not part of this model. `parse_to_html` takes the parser as a function parameter. The parser's error message is an opaque string; pest's formatting of it is not modelled.
- The grammar-level tests in `tests/grammar_tests.rs` are not modelled: rejecting seven or more `#`, failing on an unclosed `**`, and the literal-asterisk line. They constrain the grammar, not the renderer.
- The `LibTests` trees are ASSUMPTIONS about what the grammar produces for the test inputs, and the grammar is not checked against them. Three choices are assumed:
  - plain text is any run of `char` and `WHITESPACE` leaves spelling it, in any split between the two rules;
  - the marker is the first child of a header or list point, and the line is its second child;
  - a document holds one `block` and nothing else.
- The grammar may also add nodes the `LibTests` trees leave out: a generic `list_point` pair around each list point (as `tests/grammar_tests.rs` names one), or pest's end-of-input pair. Both render through the fallback branch. `MarkdownLaws.FallbackTransparent` and `MarkdownLaws.FallbackLeafInvisible` show that such nodes do not change the output of any sibling run or of any node they wrap. The one exception is a wrapper between a list and its points: `MarkdownLaws.ListOfPoints` is stated for lists whose children are the points themselves.
- The markdown input `md` of each `LibTests` lemma only fills `text` fields that the renderer never reads. It names the test; the output follows from the assumed tree alone.
- `Markdown.Rule` lists the rules the renderer and its tests name, plus pest's end-of-input rule. Other rules of the unseen grammar would take the same fallback branch, which `MarkdownLaws.FallbackAsBlock` covers.
- A header or list point with fewer than two children makes `unwrap` panic. There is no structured error for a malformed tree. The panic is not modelled as behaviour; it becomes the precondition `Renderable`.
- The content of a list point is not trimmed (`src/lib.rs:56-69`), unlike list and paragraph bodies, and the model keeps it untrimmed (`MarkdownLaws.RenderAllPoints`).
- The header level is a mathematical integer. A `usize` overflow cannot arise, because no string can be longer than the address space.
- `String` growth and reallocation are not modelled: the output string is a sequence of characters that the loops reassign.
- The unit tests for lists and for the combined bold-italic marker only check that some pieces occur in the output. `LibTests` proves the exact output instead, which is stronger.
