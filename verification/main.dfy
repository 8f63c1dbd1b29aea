/** `text_node_to_html_node` of src/main.py: one inline fragment becomes one
    leaf node, or a `ValueError`. The result is the new `LeafNode`'s value;
    HtmlNodes.HtmlNode.NewLeaf allocates the object for it. */
module Convert {
  import opened Wrappers
  import opened Errors
  import opened TextNodes
  import opened HtmlSpec
  import RenderFacts

  /** The converter. Every branch that builds a node goes through `LeafNode`'s
      constructor, so a missing text raises there; the link and image checks
      come before any node is built. */
  function TextNodeToHtmlNode(node: TextNode): (r: Result<Node, Error>)
    ensures r.Success? <==>
      && node.text.Some?
      && !node.textType.Other?
      && (node.textType.Link? || node.textType.Image? ==> node.url.Some?)
    ensures r.Success? ==> r.value.Leaf?
    ensures r.Success? ==> r.value.value == if node.textType.Image? then Some("") else node.text
    ensures node.textType.Other? ==> r == Failure(UnhandledKind(node.textType))
  {
    match node.textType
    case Text => MkLeaf(None, node.text, None)
    case Bold => MkLeaf(Some("b"), node.text, None)
    case Italic => MkLeaf(Some("i"), node.text, None)
    case Code => MkLeaf(Some("code"), node.text, None)
    case Link =>
      if node.url.None? then Failure(MissingUrl)
      else MkLeaf(Some("a"), node.text, Some([("href", node.url.value)]))
    case Image =>
      if node.url.None? || node.text.None? then Failure(MissingAltOrUrl)
      else MkLeaf(Some("img"), Some(""), Some([("src", node.url.value), ("alt", node.text.value)]))
    case Other(_) => Failure(UnhandledKind(node.textType))
  }

  /** The element tag each recognised kind maps to; plain text gets none. */
  function TagOf(kind: TextType): Option<string>
    requires !kind.Other?
  {
    match kind
    case Text => None
    case Bold => Some("b")
    case Italic => Some("i")
    case Code => Some("code")
    case Link => Some("a")
    case Image => Some("img")
  }

  /** Plain, bold, italic and code fragments give a leaf with the kind's tag,
      the fragment's text as value and no attributes; the url is ignored. */
  lemma ConvertFormatted(text: string, kind: TextType, url: Option<string>)
    requires kind == Text || kind == Bold || kind == Italic || kind == Code
    ensures TextNodeToHtmlNode(TextNode(Some(text), kind, url)) == Success(Leaf(TagOf(kind), Some(text), None))
  {
  }

  /** A link needs a url, checked before anything else; with one it becomes an
      `a` leaf whose only attribute is `href`. */
  lemma ConvertLink(text: Option<string>, url: Option<string>)
    ensures url.None? ==> TextNodeToHtmlNode(TextNode(text, Link, url)) == Failure(MissingUrl)
    ensures url.Some? && text.Some? ==>
      TextNodeToHtmlNode(TextNode(text, Link, url)) == Success(Leaf(Some("a"), text, Some([("href", url.value)])))
  {
  }

  /** An image needs both a url and a text; with both it becomes an `img` leaf
      with an empty value and the attributes `src` then `alt`. */
  lemma ConvertImage(text: Option<string>, url: Option<string>)
    ensures url.None? || text.None? ==> TextNodeToHtmlNode(TextNode(text, Image, url)) == Failure(MissingAltOrUrl)
    ensures url.Some? && text.Some? ==>
      TextNodeToHtmlNode(TextNode(text, Image, url))
      == Success(Leaf(Some("img"), Some(""), Some([("src", url.value), ("alt", text.value)])))
  {
  }

  /** For every kind other than image, a missing text is refused by the leaf
      constructor once the kind's own checks have passed. */
  lemma ConvertMissingText(kind: TextType, url: Option<string>)
    requires !kind.Other? && !kind.Image?
    requires kind.Link? ==> url.Some?
    ensures TextNodeToHtmlNode(TextNode(None, kind, url)) == Failure(MissingValue)
  {
  }

  /** Conversion followed by rendering: plain text comes back unchanged, and
      bold, italic and code text comes back inside its element. */
  lemma ConvertThenRenderFormatted(text: string, kind: TextType, url: Option<string>)
    requires kind == Text || kind == Bold || kind == Italic || kind == Code
    ensures Render(TextNodeToHtmlNode(TextNode(Some(text), kind, url)).value) == Success(
      if kind == Text then text else "<" + TagOf(kind).value + ">" + text + "</" + TagOf(kind).value + ">")
  {
    ConvertFormatted(text, kind, url);
    if kind != Text {
      var tag := TagOf(kind).value;
      assert Render(Leaf(Some(tag), Some(text), None)) == Success(Element(tag, None, text));
      assert PropsHtml(None) == "";
      assert Element(tag, None, text) == "<" + tag + ">" + text + "</" + tag + ">";
    }
  }

  /** Conversion followed by rendering of a link: `<a href="url">text</a>`. */
  lemma ConvertThenRenderLink(text: string, url: string)
    ensures Render(TextNodeToHtmlNode(TextNode(Some(text), Link, Some(url))).value)
            == Success("<a href=\"" + url + "\">" + text + "</a>")
  {
    var props := Some([("href", url)]);
    RenderFacts.PropsHtmlSingle("href", url);
    assert TextNodeToHtmlNode(TextNode(Some(text), Link, Some(url))) == Success(Leaf(Some("a"), Some(text), props));
    assert Render(Leaf(Some("a"), Some(text), props)) == Success(Element("a", props, text));
    assert Element("a", props, text) == "<a href=\"" + url + "\">" + text + "</a>";
  }

  /** An image's attributes: `src` first, then `alt`. */
  lemma ImageAttributes(text: string, url: string)
    ensures PropsHtml(Some([("src", url), ("alt", text)])) == " src=\"" + url + "\" alt=\"" + text + "\""
  {
    assert [("src", url), ("alt", text)] == [("src", url)] + [("alt", text)];
    RenderFacts.PropsHtmlAppend([("src", url)], [("alt", text)]);
    RenderFacts.PropsHtmlSingle("src", url);
    RenderFacts.PropsHtmlSingle("alt", text);
  }

  /** Conversion followed by rendering of an image. It is written with a
      closing tag, `<img src="url" alt="text"></img>`, as the leaf renderer
      writes every tag. */
  lemma ConvertThenRenderImage(text: string, url: string)
    ensures Render(TextNodeToHtmlNode(TextNode(Some(text), Image, Some(url))).value)
            == Success("<img src=\"" + url + "\" alt=\"" + text + "\"></img>")
  {
    var props := Some([("src", url), ("alt", text)]);
    assert TextNodeToHtmlNode(TextNode(Some(text), Image, Some(url))) == Success(Leaf(Some("img"), Some(""), props));
    assert Render(Leaf(Some("img"), Some(""), props)) == Success(Element("img", props, ""));
    ImageAttributes(text, url);
    var attrs := PropsHtml(props);
    calc {
      Element("img", props, "");
      "<" + "img" + attrs + ">" + "" + "</" + "img" + ">";
      "<img" + attrs + "></img>";
      "<img" + (" src=\"" + url + "\" alt=\"" + text + "\"") + "></img>";
      "<img src=\"" + url + "\" alt=\"" + text + "\"></img>";
    }
  }

  /** Every node the converter produces renders without raising. */
  lemma ConvertedNodesRender(node: TextNode)
    requires TextNodeToHtmlNode(node).Success?
    ensures WellFormed(TextNodeToHtmlNode(node).value)
    ensures Render(TextNodeToHtmlNode(node).value).Success?
  {
  }

  /** The intended pipeline: fragments converted one by one and placed, in
      order, under a parent render as the parent's tag around the fragments'
      renders, concatenated with nothing between them. */
  lemma ConvertedFragmentsUnderParent(fragments: seq<TextNode>, leaves: seq<Node>, tag: string, props: Option<Props>)
    requires tag != "" && |fragments| > 0 && |leaves| == |fragments|
    requires forall i :: 0 <= i < |fragments| ==> TextNodeToHtmlNode(fragments[i]) == Success(leaves[i])
    ensures RenderFacts.AllRender(leaves)
    ensures Render(Parent(Some(tag), Present(leaves), props))
            == Success("<" + tag + PropsHtml(props) + ">" + RenderFacts.ConcatRenders(leaves) + "</" + tag + ">")
  {
    forall i | 0 <= i < |leaves| ensures Render(leaves[i]).Success? {
      ConvertedNodesRender(fragments[i]);
    }
    RenderFacts.RenderParent(tag, leaves, props);
  }
}
