/** Properties of the renderer in module Markdown: what each kind of node contributes
    to the output, stated against independent descriptions of the expected HTML. */
module MarkdownLaws {
  import opened Text
  import opened Markdown

  lemma RenderAllSingleton(c: Node)
    requires Renderable(c)
    ensures RenderAll([c]) == Render(c)
  {
    assert [c][1..] == [];
  }

  /** The four structural rules concatenate the renders of their children, add nothing
      around them, and ignore their own text. */
  lemma PassThroughRender(n: Node)
    requires IsPassThrough(n.rule)
    requires forall c <- n.children :: Renderable(c)
    ensures Renderable(n) && Render(n) == RenderAll(n.children)
  {
  }

  /** A rule the renderer does not name takes the fallback branch, which behaves like the
      structural rules: an unknown rule never stops rendering and adds no markup. */
  lemma FallbackRender(n: Node)
    requires !IsHandled(n.rule)
    requires forall c <- n.children :: Renderable(c)
    ensures Renderable(n) && Render(n) == RenderAll(n.children)
  {
    match n.rule {
      case HeaderStart | ListPoint | ListStart | Unordered | Ordered | Digit | EOI =>
      case _ => assert false;
    }
  }

  /** A pass-through node with a single child is invisible: it renders as that child. */
  lemma PassThroughTransparent(r: Rule, t: string, c: Node)
    requires IsPassThrough(r) && Renderable(c)
    ensures Renderable(Node(r, t, [c]))
    ensures Render(Node(r, t, [c])) == Render(c)
  {
    PassThroughRender(Node(r, t, [c]));
    RenderAllSingleton(c);
  }

  /** A rule the renderer does not name renders exactly as a `block` node with the same
      children would, whatever its own text: the fallback adds no markup of its own. */
  lemma FallbackAsBlock(n: Node, t: string)
    requires !IsHandled(n.rule)
    requires forall c <- n.children :: Renderable(c)
    ensures Renderable(n) && Renderable(Node(Block, t, n.children))
    ensures Render(n) == Render(Node(Block, t, n.children))
  {
    FallbackRender(n);
    PassThroughRender(Node(Block, t, n.children));
  }

  /** A node of an unnamed rule wrapped around a single child is invisible: wrappers such
      as a generic `list_point` around a list point do not change the output. */
  lemma FallbackTransparent(r: Rule, t: string, c: Node)
    requires !IsHandled(r) && Renderable(c)
    ensures Renderable(Node(r, t, [c]))
    ensures Render(Node(r, t, [c])) == Render(c)
  {
    var n := Node(r, t, [c]);
    assert n.children == [c];
    RenderAllSingleton(c);
    FallbackRender(n);
  }

  /** A childless node of an unnamed rule, such as pest's end-of-input pair, contributes
      nothing wherever it sits among its siblings. */
  lemma FallbackLeafInvisible(a: seq<Node>, x: Node, b: seq<Node>)
    requires !IsHandled(x.rule) && x.children == []
    requires forall c <- a :: Renderable(c)
    requires forall c <- b :: Renderable(c)
    ensures forall c <- a + [x] + b :: Renderable(c)
    ensures RenderAll(a + [x] + b) == RenderAll(a + b)
  {
    FallbackRender(x);
    assert Render(x) == "";
    RenderAllSingleton(x);
    var ax := a + [x];
    RenderAllAppend(a, [x]);
    assert RenderAll(ax) == RenderAll(a);
    assert forall c <- ax :: Renderable(c);
    RenderAllAppend(ax, b);
    RenderAllAppend(a, b);
  }

  /** Splitting the children of a pass-through node splits its render at the same place:
      no separator or wrapper is added between or around the children. */
  lemma PassThroughConcat(r: Rule, t: string, a: seq<Node>, b: seq<Node>)
    requires IsPassThrough(r)
    requires forall x <- a :: Renderable(x)
    requires forall x <- b :: Renderable(x)
    ensures Renderable(Node(r, t, a + b))
    ensures Render(Node(r, t, a + b)) == Render(Node(r, t, a)) + Render(Node(r, t, b))
  {
    PassThroughRender(Node(r, t, a + b));
    PassThroughRender(Node(r, t, a));
    PassThroughRender(Node(r, t, b));
    RenderAllAppend(a, b);
  }

  /** Every block-level construct (header, list, list point, paragraph) ends its line. */
  lemma BlockEndsLine(n: Node)
    requires IsBlockLevel(n.rule) && Renderable(n)
    ensures EndsLine(Render(n))
  {
    var r := Render(n);
    assert r == r[..|r| - 1] + "\n" by {
      match n.rule
      case Header =>
        var level := ByteLen(Trim(n.children[0].text));
        var h := "<h" + Decimal(level) + ">" + Render(n.children[1]) + "</h" + Decimal(level) + ">";
        assert r == h + "\n";
      case UnorderedList =>
        assert r == "<ul>\n" + Trim(RenderAll(n.children)) + "\n</ul>" + "\n";
      case OrderedList =>
        assert r == "<ol>\n" + Trim(RenderAll(n.children)) + "\n</ol>" + "\n";
      case UnorderedListPoint | OrderedListPoint =>
        assert r == "<li>" + Render(n.children[1]) + "</li>" + "\n";
      case Paragraph =>
        assert r == "<p>" + Trim(RenderAll(n.children)) + "</p>" + "\n";
    }
  }

  /** A run of siblings whose last one is block-level renders to complete lines: the
      output ends with a line break, whatever comes before it. */
  lemma {:induction false} RenderAllEndsLine(cs: seq<Node>)
    requires forall c <- cs :: Renderable(c)
    requires cs != [] && IsBlockLevel(cs[|cs| - 1].rule)
    ensures EndsLine(RenderAll(cs))
  {
    if |cs| == 1 {
      assert cs[0] in cs;
      BlockEndsLine(cs[0]);
      RenderAllSingleton(cs[0]);
      assert cs == [cs[0]];
    } else {
      RenderAllEndsLine(cs[1..]);
      var r := RenderAll(cs[1..]);
      assert EndsLine(Render(cs[0]) + r);
    }
  }

  /** `k` hash characters. */
  function Hashes(k: nat): (s: string)
    ensures |s| == k && forall i :: 0 <= i < k ==> s[i] == '#'
  {
    seq(k, _ => '#')
  }

  /** The header level is the number of `#` characters in the `header_start` text once the
      surrounding whitespace is trimmed; the header wraps its content in `<hK>` … `</hK>`. */
  lemma HeaderLevel(n: Node, k: nat, pre: string, post: string)
    requires n.rule == Header && |n.children| >= 2 && Renderable(n)
    requires k >= 1 && AllWhitespace(pre) && AllWhitespace(post)
    requires n.children[0].text == pre + Hashes(k) + post
    ensures Render(n) == "<h" + Decimal(k) + ">" + Render(n.children[1]) + "</h" + Decimal(k) + ">\n"
    ensures 1 <= k <= 6 ==> Decimal(k) == [DigitChar(k)]
  {
    TrimOfPadded(pre, Hashes(k), post);
    AsciiByteLen(Hashes(k));
  }

  /** Only the first two children of a header are read: the text of the header itself and
      any further children leave the output unchanged. */
  lemma HeaderIgnoresExtraChildren(n: Node, t: string)
    requires n.rule == Header && Renderable(n)
    ensures Renderable(Node(Header, t, n.children[..2]))
    ensures Render(n) == Render(Node(Header, t, n.children[..2]))
  {
  }

  /** A list point renders from its content child alone: the marker, the point's text,
      its further children and whether the list is ordered do not show in the output. */
  lemma ListPointIgnoresMarker(p: Node, q: Node)
    requires IsListPoint(p) && IsListPoint(q) && Renderable(p) && Renderable(q)
    requires p.children[1] == q.children[1]
    ensures Render(p) == Render(q)
  {
  }

  /** The `<li>` items of a run of list points, each with its content left untrimmed. */
  function ListItems(pts: seq<Node>): string
    requires forall p <- pts :: IsListPoint(p) && Renderable(p)
  {
    if pts == [] then ""
    else
      var p := pts[0];
      assert p in pts && IsListPoint(p) && Renderable(p);
      assert p.rule == UnorderedListPoint || p.rule == OrderedListPoint;
      assert |p.children| >= 2;
      "<li>" + Render(pts[0].children[1]) + "</li>\n" + ListItems(pts[1..])
  }

  lemma {:induction false} RenderAllPoints(pts: seq<Node>)
    requires forall p <- pts :: IsListPoint(p) && Renderable(p)
    ensures RenderAll(pts) == ListItems(pts)
    ensures pts != [] ==> |ListItems(pts)| >= 2 && ListItems(pts)[0] == '<'
    ensures pts != [] ==> ListItems(pts)[|ListItems(pts)| - 2..] == ">\n"
  {
    if pts != [] {
      var p := pts[0];
      assert p in pts;
      RenderAllPoints(pts[1..]);
      var head := "<li>" + Render(pts[0].children[1]) + "</li>\n";
      var rest := ListItems(pts[1..]);
      assert ListItems(pts) == head + rest;
      if rest == [] {
        assert head + rest == head;
      } else {
        assert (head + rest)[|head + rest| - 2..] == rest[|rest| - 2..];
      }
    }
  }

  lemma AngleBracketsAreNotWhitespace()
    ensures !IsWhitespace('<') && !IsWhitespace('>')
  {
  }

  /** Trimming a run of `<li>` lines removes only the newline after the last one. */
  lemma TrimItems(items: string)
    requires |items| >= 2 && items[0] == '<' && items[|items| - 2..] == ">\n"
    ensures Trim(items) + "\n" == items
  {
    var m := items[..|items| - 1];
    assert items == [] + m + "\n";
    assert m[0] == '<' && m[|m| - 1] == '>';
    AngleBracketsAreNotWhitespace();
    assert AllWhitespace("\n");
    TrimOfPadded([], m, "\n");
  }

  /** Putting back the newline that `trim` took off the items. */
  lemma Rewrap(open: string, m: string, close: string, items: string)
    requires m + "\n" == items
    ensures open + m + ("\n" + close) == open + items + close
  {
  }

  /** A list of one or more points renders as the opening tag on its own line, one `<li>`
      line per point in document order, and the closing tag: `trim` removes only the newline
      after the last item, which the closing format string puts back. */
  lemma ListOfPoints(n: Node)
    requires (n.rule == UnorderedList || n.rule == OrderedList) && Renderable(n)
    requires n.children != [] && forall p <- n.children :: IsListPoint(p)
    ensures n.rule == UnorderedList ==> Render(n) == "<ul>\n" + ListItems(n.children) + "</ul>\n"
    ensures n.rule == OrderedList ==> Render(n) == "<ol>\n" + ListItems(n.children) + "</ol>\n"
  {
    RenderAllPoints(n.children);
    var items := ListItems(n.children);
    TrimItems(items);
    var m := Trim(RenderAll(n.children));
    if n.rule == UnorderedList {
      assert "\n</ul>\n" == "\n" + "</ul>\n";
      Rewrap("<ul>\n", m, "</ul>\n", items);
    } else {
      assert "\n</ol>\n" == "\n" + "</ol>\n";
      Rewrap("<ol>\n", m, "</ol>\n", items);
    }
  }

  /** Whatever the children of a list are, the text between the opening tag line and the
      closing tag line neither starts nor ends with whitespace. */
  lemma ListBodyTrimmed(n: Node)
    requires (n.rule == UnorderedList || n.rule == OrderedList) && Renderable(n)
    ensures exists m ::
      && Trimmed(m)
      && (n.rule == UnorderedList ==> Render(n) == "<ul>\n" + m + "\n</ul>\n")
      && (n.rule == OrderedList ==> Render(n) == "<ol>\n" + m + "\n</ol>\n")
  {
    var m := Trim(RenderAll(n.children));
    TrimIsTrimmed(RenderAll(n.children));
    assert n.rule == UnorderedList ==> Render(n) == "<ul>\n" + m + "\n</ul>\n";
    assert n.rule == OrderedList ==> Render(n) == "<ol>\n" + m + "\n</ol>\n";
  }

  /** A paragraph drops the whitespace around its concatenated lines, and only that:
      whatever lies between the first and last non-whitespace character is kept. */
  lemma ParagraphStripsPadding(n: Node, a: string, m: string, b: string)
    requires n.rule == Paragraph && Renderable(n)
    requires RenderAll(n.children) == a + m + b
    requires AllWhitespace(a) && AllWhitespace(b) && Trimmed(m)
    ensures Render(n) == "<p>" + m + "</p>\n"
  {
    TrimOfPadded(a, m, b);
  }

  /** The body of a paragraph never starts or ends with whitespace, and trimming it
      again changes nothing. */
  lemma ParagraphBodyTrimmed(n: Node)
    requires n.rule == Paragraph && Renderable(n)
    ensures exists m :: Render(n) == "<p>" + m + "</p>\n" && Trimmed(m) && Trim(m) == m
  {
    var m := Trim(RenderAll(n.children));
    TrimIsTrimmed(RenderAll(n.children));
    TrimIdempotent(RenderAll(n.children));
    assert Render(n) == "<p>" + m + "</p>\n";
  }

  /** The inline wrappers put fixed tags around the concatenated renders of their children. */
  lemma InlineWrappers(t: string, cs: seq<Node>)
    requires forall c <- cs :: Renderable(c)
    ensures Render(Node(BoldItalic, t, cs)) == "<strong><em>" + RenderAll(cs) + "</em></strong>"
    ensures Render(Node(Bold, t, cs)) == "<strong>" + RenderAll(cs) + "</strong>"
    ensures Render(Node(Italic, t, cs)) == "<em>" + RenderAll(cs) + "</em>"
  {
  }

  /** The combined `bold_italic` node renders exactly as an `italic` node nested in a `bold` one. */
  lemma BoldItalicAsNested(t: string, t1: string, t2: string, cs: seq<Node>)
    requires forall c <- cs :: Renderable(c)
    ensures Renderable(Node(BoldItalic, t, cs))
    ensures Renderable(Node(Bold, t1, [Node(Italic, t2, cs)]))
    ensures Render(Node(BoldItalic, t, cs)) == Render(Node(Bold, t1, [Node(Italic, t2, cs)]))
  {
    var inner := Node(Italic, t2, cs);
    InlineWrappers(t, cs);
    InlineWrappers(t2, cs);
    InlineWrappers(t1, [inner]);
    RenderAllSingleton(inner);
    var body := RenderAll(cs);
    assert "<strong>" + ("<em>" + body + "</em>") + "</strong>" == "<strong><em>" + body + "</em></strong>";
  }

  /** Trees of inline constructs whose characters hold no line break. */
  predicate InlineOnly(n: Node)
    decreases n
  {
    match n.rule
    case Char | Whitespace => '\n' !in n.text
    case LineContent | BoldItalic | Bold | Italic => forall c <- n.children :: InlineOnly(c)
    case _ => false
  }

  /** The inline wrappers add tags but no line break. */
  lemma {:induction false} InlineHasNoNewline(n: Node)
    requires InlineOnly(n)
    ensures Renderable(n) && '\n' !in Render(n)
    decreases n, 1
  {
    if n.rule != Char && n.rule != Whitespace {
      InlineAllHaveNoNewline(n.children);
    }
  }

  lemma {:induction false} InlineAllHaveNoNewline(cs: seq<Node>)
    requires forall c <- cs :: InlineOnly(c)
    ensures forall c <- cs :: Renderable(c)
    ensures '\n' !in RenderAll(cs)
    decreases cs
  {
    forall c <- cs ensures Renderable(c) {
      InlineHasNoNewline(c);
    }
    if cs != [] {
      InlineHasNoNewline(cs[0]);
      InlineAllHaveNoNewline(cs[1..]);
    }
  }

  /** The leaves whose render is the text they matched. */
  predicate IsLeaf(n: Node) {
    n.rule == Char || n.rule == Whitespace
  }

  /** The matched texts of `ls`, concatenated in order. */
  function Texts(ls: seq<Node>): string
  {
    if ls == [] then "" else ls[0].text + Texts(ls[1..])
  }

  /** `char` and `WHITESPACE` leaves emit the text they matched verbatim, with no HTML
      escaping: any run of them, whatever their texts and however characters are split
      between the two rules, renders to exactly its concatenated texts, `<` and `&` included. */
  lemma {:induction false} LeavesVerbatim(ls: seq<Node>)
    requires forall l <- ls :: IsLeaf(l)
    ensures forall l <- ls :: Renderable(l)
    ensures RenderAll(ls) == Texts(ls)
  {
    if ls != [] {
      assert ls[0] in ls;
      LeavesVerbatim(ls[1..]);
    }
  }
}
