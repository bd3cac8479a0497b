/** The tree-to-HTML renderer of src/lib.rs: `convert_pair_to_html` (the function `Render`),
    `convert_inner_to_html` (the method `ConvertInnerToHtml`, specified by `RenderAll`) and
    `parse_to_html` (the method `ParseToHtml`). The pest parser is a parameter. */
module Markdown {
  import opened Text

  /** The rule tags a parse-tree node can carry. The grammar itself is not part of this model;
      these are the rules the renderer and its tests name, plus pest's end-of-input rule. */
  datatype Rule =
    | Document | Block | Header | HeaderStart
    | UnorderedList | OrderedList | UnorderedListPoint | OrderedListPoint
    | ListPoint | ListStart | Unordered | Ordered
    | Paragraph | ParagraphLine | LineContent
    | BoldItalic | Bold | Italic
    | Char | Digit | Whitespace | EOI

  /** A pest pair: its rule, the text it matched (`as_str()`) and its children (`into_inner()`). */
  datatype Node = Node(rule: Rule, text: string, children: seq<Node>)

  datatype Result<T, E> = Ok(value: T) | Err(error: E)

  /** The rules whose render is the concatenation of their children's renders. */
  predicate IsPassThrough(r: Rule) {
    r == Document || r == Block || r == ParagraphLine || r == LineContent
  }

  /** The rules `convert_pair_to_html` names; every other rule takes its fallback branch. */
  predicate IsHandled(r: Rule) {
    IsPassThrough(r) || r == Header || r == UnorderedList || r == OrderedList
    || r == UnorderedListPoint || r == OrderedListPoint || r == Paragraph
    || r == BoldItalic || r == Bold || r == Italic || r == Char || r == Whitespace
  }

  predicate IsListPoint(n: Node) {
    n.rule == UnorderedListPoint || n.rule == OrderedListPoint
  }

  /** The rules whose render is a whole line (or lines) of block-level HTML. */
  predicate IsBlockLevel(r: Rule) {
    r == Header || r == UnorderedList || r == OrderedList
    || r == UnorderedListPoint || r == OrderedListPoint || r == Paragraph
  }

  /** `s` ends with a line break. */
  predicate EndsLine(s: string) {
    s != [] && s[|s| - 1] == '\n'
  }

  /** A uniform shape condition, independent of how the renderer walks the tree: every
      header and list point anywhere in the tree has at least two children. */
  predicate WellShaped(n: Node)
    decreases n
  {
    (n.rule == Header || IsListPoint(n) ==> |n.children| >= 2)
    && forall c <- n.children :: WellShaped(c)
  }

  /** The renderer does not panic on `n`: every header and list point it visits
      has the two children its `unwrap` calls take. Subtrees it never visits (the marker
      child of a header or list point, the children of a leaf) are unconstrained, so every
      well-shaped tree is renderable. */
  predicate Renderable(n: Node)
    ensures WellShaped(n) ==> Renderable(n)
    decreases n
  {
    match n.rule
    case Header | UnorderedListPoint | OrderedListPoint =>
      |n.children| >= 2 && Renderable(n.children[1])
    case Char | Whitespace => true
    case _ => forall c <- n.children :: Renderable(c)
  }

  /** `convert_pair_to_html`. */
  function Render(n: Node): string
    requires Renderable(n)
    decreases n, 1
  {
    match n.rule
    case Document | Block | ParagraphLine | LineContent => RenderAll(n.children)
    case Header =>
      var level := ByteLen(Trim(n.children[0].text));
      "<h" + Decimal(level) + ">" + Render(n.children[1]) + "</h" + Decimal(level) + ">\n"
    case UnorderedList => "<ul>\n" + Trim(RenderAll(n.children)) + "\n</ul>\n"
    case OrderedList => "<ol>\n" + Trim(RenderAll(n.children)) + "\n</ol>\n"
    case UnorderedListPoint | OrderedListPoint => "<li>" + Render(n.children[1]) + "</li>\n"
    case Paragraph => "<p>" + Trim(RenderAll(n.children)) + "</p>\n"
    case BoldItalic => "<strong><em>" + RenderAll(n.children) + "</em></strong>"
    case Bold => "<strong>" + RenderAll(n.children) + "</strong>"
    case Italic => "<em>" + RenderAll(n.children) + "</em>"
    case Char | Whitespace => n.text
    case _ => RenderAll(n.children)
  }

  /** What `convert_inner_to_html` computes: the renders of `cs`, in order, concatenated. */
  function RenderAll(cs: seq<Node>): string
    requires forall c <- cs :: Renderable(c)
    decreases cs
  {
    if cs == [] then "" else Render(cs[0]) + RenderAll(cs[1..])
  }

  /** Rendering distributes over splitting a list of siblings. */
  lemma {:induction false} RenderAllAppend(a: seq<Node>, b: seq<Node>)
    requires forall c <- a :: Renderable(c)
    requires forall c <- b :: Renderable(c)
    ensures RenderAll(a + b) == RenderAll(a) + RenderAll(b)
  {
    if a == [] {
      assert a + b == b;
    } else {
      assert (a + b)[1..] == a[1..] + b;
      RenderAllAppend(a[1..], b);
    }
  }

  /** `convert_inner_to_html`: pushes the render of each child onto `html`, in order. */
  method ConvertInnerToHtml(n: Node) returns (html: string)
    requires forall c <- n.children :: Renderable(c)
    ensures html == RenderAll(n.children)
  {
    html := "";
    for i := 0 to |n.children|
      invariant html == RenderAll(n.children[..i])
    {
      RenderAllAppend(n.children[..i], [n.children[i]]);
      assert n.children[..i + 1] == n.children[..i] + [n.children[i]];
      html := html + Render(n.children[i]);
    }
    assert n.children[..|n.children|] == n.children;
  }

  /** `parse_to_html`: runs the parser on `markdown`; on success concatenates the renders
      of the top-level pairs, on failure returns the parser's message behind "Parse error: ". */
  method ParseToHtml(markdown: string, parse: string -> Result<seq<Node>, string>)
    returns (r: Result<string, string>)
    requires parse(markdown).Ok? ==> forall n <- parse(markdown).value :: Renderable(n)
    ensures parse(markdown).Ok? ==> r == Ok(RenderAll(parse(markdown).value))
    ensures parse(markdown).Err? ==> r == Err("Parse error: " + parse(markdown).error)
  {
    match parse(markdown) {
      case Ok(pairs) =>
        var html := "";
        for i := 0 to |pairs|
          invariant html == RenderAll(pairs[..i])
        {
          RenderAllAppend(pairs[..i], [pairs[i]]);
          assert pairs[..i + 1] == pairs[..i] + [pairs[i]];
          html := html + Render(pairs[i]);
        }
        assert pairs[..|pairs|] == pairs;
        r := Ok(html);
      case Err(e) =>
        r := Err("Parse error: " + e);
    }
  }
}
