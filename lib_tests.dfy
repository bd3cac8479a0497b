/** The unit tests of src/lib.rs, stated on trees ASSUMED for their inputs (the grammar is not
    part of this model). Plain text is any run of `char` and `WHITESPACE` leaves spelling it,
    so the results hold however the grammar splits text between those two rules. The markdown
    input `md` only fills the `text` of document, block and container nodes, which the
    renderer never reads; it names the test, it does not drive the proof. Each lemma proves
    the exact HTML for its tree (the list and combined-marker tests only check that some
    pieces occur in it). */
module LibTests {
  import opened Text
  import opened Markdown
  import opened MarkdownLaws

  /** `ls` is a run of leaves whose texts spell `s`. */
  predicate LeafRun(ls: seq<Node>, s: string) {
    (forall l <- ls :: IsLeaf(l)) && Texts(ls) == s
  }

  /** A `line_content` node over the leaves `ls`. */
  function Line(s: string, ls: seq<Node>): Node {
    Node(LineContent, s, ls)
  }

  lemma LineVerbatim(s: string, ls: seq<Node>)
    requires LeafRun(ls, s)
    ensures Renderable(Line(s, ls)) && Render(Line(s, ls)) == s
  {
    LeavesVerbatim(ls);
    PassThroughRender(Line(s, ls));
  }

  /** The tree of a document holding a single block. */
  function SingleBlock(md: string, b: Node): Node {
    Node(Document, md, [Node(Block, md, [b])])
  }

  /** The top-level glue of `parse_to_html` renders a single-block document as its block. */
  lemma SingleBlockRender(md: string, b: Node)
    requires Renderable(b)
    ensures Renderable(SingleBlock(md, b)) && (forall d <- [SingleBlock(md, b)] :: Renderable(d))
    ensures RenderAll([SingleBlock(md, b)]) == Render(b)
  {
    PassThroughTransparent(Block, md, b);
    var blk := Node(Block, md, [b]);
    PassThroughTransparent(Document, md, blk);
    RenderAllSingleton(SingleBlock(md, b));
  }

  /** A paragraph of one line whose inline nodes are `inline`. */
  function OneLineParagraph(md: string, inline: seq<Node>): Node {
    Node(Paragraph, md, [Node(ParagraphLine, md, [Node(LineContent, md, inline)])])
  }

  lemma OneLineParagraphRender(md: string, inline: seq<Node>, m: string)
    requires forall c <- inline :: Renderable(c)
    requires RenderAll(inline) == m && Trimmed(m)
    ensures Renderable(OneLineParagraph(md, inline))
    ensures Render(OneLineParagraph(md, inline)) == "<p>" + m + "</p>\n"
  {
    var lc := Node(LineContent, md, inline);
    PassThroughRender(lc);
    PassThroughTransparent(ParagraphLine, md, lc);
    var pl := Node(ParagraphLine, md, [lc]);
    RenderAllSingleton(pl);
    assert m == [] + m + [];
    ParagraphStripsPadding(OneLineParagraph(md, inline), [], m, []);
  }

  /** Plain text, one inline node, plain text: the shape of the lines in the inline tests. */
  lemma SandwichRender(before: string, lb: seq<Node>, x: Node, after: string, la: seq<Node>)
    requires LeafRun(lb, before) && LeafRun(la, after) && Renderable(x)
    ensures forall c <- lb + [x] + la :: Renderable(c)
    ensures RenderAll(lb + [x] + la) == before + Render(x) + after
  {
    LeavesVerbatim(lb);
    LeavesVerbatim(la);
    RenderAllSingleton(x);
    RenderAllAppend(lb, [x]);
    RenderAllAppend(lb + [x], la);
  }

  /** A header of level `k` over one line of text renders that text between `<hK>` tags. */
  lemma HeaderOfLine(md: string, k: nat, s: string, ls: seq<Node>)
    requires k >= 1 && LeafRun(ls, s)
    ensures var h := Node(Header, md, [Node(HeaderStart, Hashes(k) + " ", []), Line(s, ls)]);
      Renderable(SingleBlock(md, h))
      && RenderAll([SingleBlock(md, h)]) == "<h" + Decimal(k) + ">" + s + "</h" + Decimal(k) + ">\n"
  {
    var h := Node(Header, md, [Node(HeaderStart, Hashes(k) + " ", []), Line(s, ls)]);
    LineVerbatim(s, ls);
    assert Hashes(k) + " " == [] + Hashes(k) + " ";
    assert AllWhitespace([]) && AllWhitespace(" ");
    HeaderLevel(h, k, [], " ");
    SingleBlockRender(md, h);
  }

  /** test_parse_simple_header: the tree assumed for "# Hello World\n" gives
      "<h1>Hello World</h1>\n". */
  lemma SimpleHeader(md: string, s: string, ls: seq<Node>)
    requires md == "# Hello World\n" && s == "Hello World" && LeafRun(ls, s)
    ensures var h := Node(Header, md, [Node(HeaderStart, "# ", []), Line(s, ls)]);
      Renderable(SingleBlock(md, h))
      && RenderAll([SingleBlock(md, h)]) == "<h1>" + s + "</h1>\n"
  {
    HeaderOfLine(md, 1, s, ls);
    assert Hashes(1) + " " == "# ";
    assert Decimal(1) == "1";
  }

  lemma Flatten7(a: string, b: string, c: string, d: string, e: string, f: string, g: string)
    ensures a + (b + (c + d + e) + f) + g == a + b + c + d + e + f + g
  {
  }

  /** A paragraph of one line made of plain text, one inline node wrapping `w` in tags,
      and plain text: the text and the tags come out in document order. */
  lemma InlineParagraph(md: string, before: string, lb: seq<Node>, x: Node, after: string, la: seq<Node>,
                        open: string, w: string, close: string)
    requires LeafRun(lb, before) && LeafRun(la, after)
    requires Renderable(x) && Render(x) == open + w + close
    requires Trimmed(before + Render(x) + after)
    ensures var p := OneLineParagraph(md, lb + [x] + la);
      Renderable(SingleBlock(md, p))
      && RenderAll([SingleBlock(md, p)]) == "<p>" + before + open + w + close + after + "</p>\n"
  {
    SandwichRender(before, lb, x, after, la);
    OneLineParagraphRender(md, lb + [x] + la, before + Render(x) + after);
    SingleBlockRender(md, OneLineParagraph(md, lb + [x] + la));
    Flatten7("<p>", before, open, w, close, after, "</p>\n");
  }

  /** test_parse_bold_text: the tree assumed for "This is **bold** text\n" gives
      "<p>This is <strong>bold</strong> text</p>\n". */
  lemma BoldText(md: string, before: string, lb: seq<Node>, w: string, lw: seq<Node>, after: string, la: seq<Node>)
    requires md == "This is **bold** text\n"
    requires before == "This is " && w == "bold" && after == " text"
    requires LeafRun(lb, before) && LeafRun(lw, w) && LeafRun(la, after)
    ensures var p := OneLineParagraph(md, lb + [Node(Bold, "**" + w + "**", lw)] + la);
      Renderable(SingleBlock(md, p))
      && RenderAll([SingleBlock(md, p)]) == "<p>" + before + "<strong>" + w + "</strong>" + after + "</p>\n"
  {
    var b := Node(Bold, "**" + w + "**", lw);
    LeavesVerbatim(lw);
    InlineWrappers(b.text, lw);
    InlineParagraph(md, before, lb, b, after, la, "<strong>", w, "</strong>");
  }

  /** test_parse_italic_text: the tree assumed for "This is *italic* text\n" gives
      "<p>This is <em>italic</em> text</p>\n". */
  lemma ItalicText(md: string, before: string, lb: seq<Node>, w: string, lw: seq<Node>, after: string, la: seq<Node>)
    requires md == "This is *italic* text\n"
    requires before == "This is " && w == "italic" && after == " text"
    requires LeafRun(lb, before) && LeafRun(lw, w) && LeafRun(la, after)
    ensures var p := OneLineParagraph(md, lb + [Node(Italic, "*" + w + "*", lw)] + la);
      Renderable(SingleBlock(md, p))
      && RenderAll([SingleBlock(md, p)]) == "<p>" + before + "<em>" + w + "</em>" + after + "</p>\n"
  {
    var i := Node(Italic, "*" + w + "*", lw);
    LeavesVerbatim(lw);
    InlineWrappers(i.text, lw);
    InlineParagraph(md, before, lb, i, after, la, "<em>", w, "</em>");
  }

  /** test_parse_bold_italic_combined: the tree assumed for
      "This is ***bold and italic*** text\n" gives
      "<p>This is <strong><em>bold and italic</em></strong> text</p>\n". */
  lemma BoldItalicCombined(md: string, before: string, lb: seq<Node>, w: string, lw: seq<Node>, after: string, la: seq<Node>)
    requires md == "This is ***bold and italic*** text\n"
    requires before == "This is " && w == "bold and italic" && after == " text"
    requires LeafRun(lb, before) && LeafRun(lw, w) && LeafRun(la, after)
    ensures var p := OneLineParagraph(md, lb + [Node(BoldItalic, "***" + w + "***", lw)] + la);
      Renderable(SingleBlock(md, p))
      && RenderAll([SingleBlock(md, p)]) == "<p>" + before + "<strong><em>" + w + "</em></strong>" + after + "</p>\n"
  {
    var bi := Node(BoldItalic, "***" + w + "***", lw);
    LeavesVerbatim(lw);
    InlineWrappers(bi.text, lw);
    InlineParagraph(md, before, lb, bi, after, la, "<strong><em>", w, "</em></strong>");
  }

  /** A list point with marker `marker` over the line `Line(s, ls)`. */
  function Point(rule: Rule, marker: Node, s: string, ls: seq<Node>): Node {
    Node(rule, marker.text + s + "\n", [marker, Line(s, ls)])
  }

  /** One list point whose content is the plain text `s` contributes one `<li>` line. */
  lemma ItemOfLine(p: Node, s: string, ls: seq<Node>, rest: seq<Node>)
    requires IsListPoint(p) && |p.children| >= 2 && p.children[1] == Line(s, ls) && LeafRun(ls, s)
    requires forall x <- rest :: IsListPoint(x) && Renderable(x)
    ensures Renderable(p)
    ensures forall x <- [p] + rest :: IsListPoint(x) && Renderable(x)
    ensures ListItems([p] + rest) == "<li>" + s + "</li>\n" + ListItems(rest)
  {
    LineVerbatim(s, ls);
    assert ([p] + rest)[0] == p;
    assert ([p] + rest)[1..] == rest;
  }

  /** The `<li>` lines of two list points whose contents are the plain texts `s` and `u`. */
  lemma TwoItems(p: Node, q: Node, s: string, ls: seq<Node>, u: string, lu: seq<Node>)
    requires IsListPoint(p) && IsListPoint(q) && |p.children| >= 2 && |q.children| >= 2
    requires p.children[1] == Line(s, ls) && q.children[1] == Line(u, lu)
    requires LeafRun(ls, s) && LeafRun(lu, u)
    ensures Renderable(p) && Renderable(q)
    ensures ListItems([p, q]) == "<li>" + s + "</li>\n" + "<li>" + u + "</li>\n"
  {
    ItemOfLine(q, u, lu, []);
    assert [q] + [] == [q];
    ItemOfLine(p, s, ls, [q]);
    assert [p] + [q] == [p, q];
  }

  /** A two-point list renders as its tags around two `<li>` lines holding the point texts. */
  lemma TwoPointList(md: string, lr: Rule, pr: Rule, m1: Node, s: string, ls: seq<Node>,
                     m2: Node, u: string, lu: seq<Node>, open: string, close: string)
    requires (lr == UnorderedList && pr == UnorderedListPoint && open == "<ul>\n" && close == "</ul>\n")
          || (lr == OrderedList && pr == OrderedListPoint && open == "<ol>\n" && close == "</ol>\n")
    requires LeafRun(ls, s) && LeafRun(lu, u)
    ensures var l := Node(lr, md, [Point(pr, m1, s, ls), Point(pr, m2, u, lu)]);
      Renderable(SingleBlock(md, l))
      && RenderAll([SingleBlock(md, l)]) == open + ("<li>" + s + "</li>\n" + "<li>" + u + "</li>\n") + close
  {
    var p := Point(pr, m1, s, ls);
    var q := Point(pr, m2, u, lu);
    var l := Node(lr, md, [p, q]);
    TwoItems(p, q, s, ls, u, lu);
    ListOfPoints(l);
    SingleBlockRender(md, l);
  }

  /** test_parse_unordered_list: the tree assumed for "- Point 1\n- Point 2\n" gives
      "<ul>\n<li>Point 1</li>\n<li>Point 2</li>\n</ul>\n". */
  lemma UnorderedListTest(md: string, s: string, ls: seq<Node>, u: string, lu: seq<Node>)
    requires md == "- Point 1\n- Point 2\n" && s == "Point 1" && u == "Point 2"
    requires LeafRun(ls, s) && LeafRun(lu, u)
    ensures var l := Node(UnorderedList, md,
        [Point(UnorderedListPoint, Node(ListStart, "- ", []), s, ls),
         Point(UnorderedListPoint, Node(ListStart, "- ", []), u, lu)]);
      Renderable(SingleBlock(md, l))
      && RenderAll([SingleBlock(md, l)]) == "<ul>\n" + ("<li>" + s + "</li>\n" + "<li>" + u + "</li>\n") + "</ul>\n"
  {
    var m := Node(ListStart, "- ", []);
    TwoPointList(md, UnorderedList, UnorderedListPoint, m, s, ls, m, u, lu, "<ul>\n", "</ul>\n");
  }

  /** test_parse_ordered_list: the tree assumed for "1. First point\n2. Second point\n" gives
      "<ol>\n<li>First point</li>\n<li>Second point</li>\n</ol>\n". */
  lemma OrderedListTest(md: string, s: string, ls: seq<Node>, u: string, lu: seq<Node>)
    requires md == "1. First point\n2. Second point\n" && s == "First point" && u == "Second point"
    requires LeafRun(ls, s) && LeafRun(lu, u)
    ensures var l := Node(OrderedList, md,
        [Point(OrderedListPoint, Node(Ordered, "1. ", []), s, ls),
         Point(OrderedListPoint, Node(Ordered, "2. ", []), u, lu)]);
      Renderable(SingleBlock(md, l))
      && RenderAll([SingleBlock(md, l)]) == "<ol>\n" + ("<li>" + s + "</li>\n" + "<li>" + u + "</li>\n") + "</ol>\n"
  {
    TwoPointList(md, OrderedList, OrderedListPoint, Node(Ordered, "1. ", []), s, ls,
      Node(Ordered, "2. ", []), u, lu, "<ol>\n", "</ol>\n");
  }
}
