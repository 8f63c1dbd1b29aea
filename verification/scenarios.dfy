/** Callers of the node objects, in the order src/test_htmlnode.py uses
    them: build valid nodes, reassign an attribute, render again. What each
    render returns follows from the contracts of HtmlNodes alone. */
module Scenarios {
  import opened Wrappers
  import opened Errors
  import opened HtmlSpec
  import opened HtmlNodes
  import RenderFacts

  /** A leaf whose value is reassigned to `None` raises when rendered. */
  method MutatedLeaf() {
    var made := HtmlNode.NewLeaf(Some("p"), Some("x"), None);
    var leaf := made.value;
    var before := leaf.ToHtml();
    assert leaf.Model() == Leaf(Some("p"), Some("x"), None);
    assert Render(Leaf(Some("p"), Some("x"), None)) == Success(Element("p", None, "x"));
    assert Element("p", None, "x") == "<p>x</p>";
    assert before == Success("<p>x</p>");
    leaf.SetValue(None);
    var after := leaf.ToHtml();
    assert after == Failure(InvalidValue);
  }

  function BoldLeaf(text: string): Node {
    Leaf(Some("b"), Some(text), None)
  }

  function SpanOfBold(text: string): Node {
    Parent(Some("span"), Present([BoldLeaf(text)]), None)
  }

  /** A `b` leaf renders as `<b>text</b>`. */
  lemma BoldLeafRenders(text: string)
    ensures Render(BoldLeaf(text)) == Success("<b>" + text + "</b>")
  {
    RenderFacts.ElementWithoutProps("b", text);
    assert "<" + "b" + ">" + text + "</" + "b" + ">" == "<b>" + text + "</b>";
  }

  /** A `span` around that leaf renders as `<span><b>text</b></span>`. */
  lemma SpanOfBoldRenders(text: string)
    ensures Render(SpanOfBold(text)) == Success("<span><b>" + text + "</b></span>")
  {
    var inner := "<b>" + text + "</b>";
    BoldLeafRenders(text);
    RenderFacts.OnlyChildRenders("span", BoldLeaf(text), inner);
    assert "<" + "span" + ">" + inner + "</" + "span" + ">" == "<span><b>" + text + "</b></span>";
  }

  /** A parent inside a parent renders recursively, each wrapping the
      concatenation of its children. */
  lemma GrandchildRenders(text: string)
    ensures Render(Parent(Some("div"), Present([SpanOfBold(text)]), None))
            == Success("<div><span><b>" + text + "</b></span></div>")
  {
    var middle := "<span><b>" + text + "</b></span>";
    SpanOfBoldRenders(text);
    RenderFacts.OnlyChildRenders("div", SpanOfBold(text), middle);
    assert "<" + "div" + ">" + middle + "</" + "div" + ">" == "<div><span><b>" + text + "</b></span></div>";
  }

  /** The same tree built from objects renders the same way. */
  method NestedParents(text: string) {
    var b := HtmlNode.NewLeaf(Some("b"), Some(text), None);
    var span := HtmlNode.NewParent(Some("span"), Some([b.value]), None);
    var div := HtmlNode.NewParent(Some("div"), Some([span.value]), None);
    assert span.value.ChildModels(1) == [BoldLeaf(text)];
    assert div.value.ChildModels(1) == [SpanOfBold(text)];
    GrandchildRenders(text);
    var html := div.value.ToHtml();
    assert html == Success("<div><span><b>" + text + "</b></span></div>");
  }

  /** Emptying a valid parent's tag, or its children, makes it raise. */
  method MutatedParent() {
    var b := HtmlNode.NewLeaf(Some("span"), Some("c"), None);
    var div := HtmlNode.NewParent(Some("div"), Some([b.value]), None);
    var node := div.value;
    node.SetTag(Some(""));
    var html := node.ToHtml();
    assert html == Failure(InvalidTag);
    node.SetTag(Some("div"));
    node.SetChildren(None);
    html := node.ToHtml();
    assert html == Failure(InvalidChildren);
    node.SetChildren(Some([]));
    html := node.ToHtml();
    assert html == Failure(InvalidChildren);
  }
}
