/** What `props_to_html` and `to_html` guarantee, stated against independent
    reference definitions and proved by induction over the attribute list and
    the node tree. */
module RenderFacts {
  import opened Wrappers
  import opened Errors
  import opened HtmlSpec

  // ---------------------------------------------------------------------------
  // Attributes

  /** Reference reading of the attribute string: each item, in order, preceded
      by exactly one space. */
  function SpacedAttributes(items: Props): string {
    if |items| == 0 then "" else " " + Attribute(items[0]) + SpacedAttributes(items[1..])
  }

  lemma {:induction false} JoinedIsSpaced(items: Props)
    requires items != []
    ensures " " + Join(AttributeParts(items), " ") == SpacedAttributes(items)
    decreases |items|
  {
    if |items| > 1 {
      assert AttributeParts(items)[1..] == AttributeParts(items[1..]);
      JoinedIsSpaced(items[1..]);
    }
  }

  /** `props_to_html` writes every item as ` key="value"`, in iteration order,
      and writes nothing for an absent or empty dictionary. */
  lemma PropsHtmlIsSpaced(props: Option<Props>)
    ensures PropsHtml(props) == if props.None? then "" else SpacedAttributes(props.value)
  {
    if props.Some? && props.value != [] {
      JoinedIsSpaced(props.value);
    }
  }

  lemma {:induction false} SpacedAttributesAppend(a: Props, b: Props)
    ensures SpacedAttributes(a + b) == SpacedAttributes(a) + SpacedAttributes(b)
    decreases |a|
  {
    if |a| > 0 {
      assert (a + b)[1..] == a[1..] + b;
      SpacedAttributesAppend(a[1..], b);
    } else {
      assert a + b == b;
    }
  }

  /** Order preservation: the attribute string of a dictionary whose items are
      `a` followed by `b` is that of `a` followed by that of `b`. */
  lemma PropsHtmlAppend(a: Props, b: Props)
    ensures PropsHtml(Some(a + b)) == PropsHtml(Some(a)) + PropsHtml(Some(b))
  {
    PropsHtmlIsSpaced(Some(a + b));
    PropsHtmlIsSpaced(Some(a));
    PropsHtmlIsSpaced(Some(b));
    SpacedAttributesAppend(a, b);
  }

  /** A single item renders as ` key="value"`, its value inserted verbatim. */
  lemma PropsHtmlSingle(key: string, val: string)
    ensures PropsHtml(Some([(key, val)])) == " " + key + "=\"" + val + "\""
  {
  }

  /** Without attributes an element is just its open tag, content and close tag. */
  lemma ElementWithoutProps(tag: string, inner: string)
    ensures Element(tag, None, inner) == "<" + tag + ">" + inner + "</" + tag + ">"
  {
    assert PropsHtml(None) == "";
    assert "<" + tag + "" == "<" + tag;
  }

  // ---------------------------------------------------------------------------
  // Leaves

  /** `LeafNode.to_html`: a missing value raises whatever the tag; no tag gives
      the bare value with the attributes ignored; any tag, even the empty
      string, gives `<tag attrs>value</tag>`. */
  lemma RenderLeaf(tag: Option<string>, val: string, props: Option<Props>)
    ensures Render(Leaf(tag, None, props)) == Failure(InvalidValue)
    ensures tag.None? ==> Render(Leaf(tag, Some(val), props)) == Success(val)
    ensures tag.Some? ==> Render(Leaf(tag, Some(val), props))
                          == Success("<" + tag.value + PropsHtml(props) + ">" + val + "</" + tag.value + ">")
  {
  }

  // ---------------------------------------------------------------------------
  // Children

  predicate AllRender(ns: seq<Node>) {
    forall i :: 0 <= i < |ns| ==> Render(ns[i]).Success?
  }

  /** Reference reading of a parent's content: the children's renders, first
      to last, with nothing between them. */
  function ConcatRenders(ns: seq<Node>): string
    requires AllRender(ns)
  {
    if |ns| == 0 then "" else Render(ns[0]).value + ConcatRenders(ns[1..])
  }

  lemma {:induction false} ConcatRendersSnoc(ns: seq<Node>, n: Node)
    requires AllRender(ns) && Render(n).Success?
    ensures AllRender(ns + [n])
    ensures ConcatRenders(ns + [n]) == ConcatRenders(ns) + Render(n).value
    decreases |ns|
  {
    if |ns| > 0 {
      assert (ns + [n])[1..] == ns[1..] + [n];
      ConcatRendersSnoc(ns[1..], n);
    }
  }

  /** The children loop succeeds exactly when every child renders, and then
      yields their renders concatenated in list order. */
  lemma {:induction false} RenderAllSucceeds(ns: seq<Node>)
    ensures RenderAll(ns).Success? <==> AllRender(ns)
    ensures RenderAll(ns).Success? ==> RenderAll(ns).value == ConcatRenders(ns)
    decreases |ns|
  {
    if |ns| > 0 {
      var front, last := ns[..|ns| - 1], ns[|ns| - 1];
      assert ns == front + [last];
      RenderAllSucceeds(front);
      if AllRender(ns) {
        assert AllRender(front) by {
          forall i | 0 <= i < |front| ensures Render(front[i]).Success? {
            assert front[i] == ns[i];
          }
        }
        ConcatRendersSnoc(front, last);
      }
      if RenderAll(ns).Success? {
        ConcatRendersSnoc(front, last);
      }
    }
  }

  /** An only child contributes exactly its own render, or its own error. */
  lemma RenderAllSingle(n: Node)
    ensures RenderAll([n]) == Render(n)
  {
    assert [n][..0] == [];
    assert [n][0] == n;
    if Render(n).Success? {
      assert "" + Render(n).value == Render(n).value;
    }
  }

  /** When the children loop fails, its error is that of the first child that
      fails; every earlier child rendered. */
  lemma {:induction false} RenderAllFailsAtFirstFailure(ns: seq<Node>)
    requires RenderAll(ns).Failure?
    ensures exists i :: 0 <= i < |ns| && AllRender(ns[..i]) && Render(ns[i]) == Failure(RenderAll(ns).error)
    decreases |ns|
  {
    var k := |ns| - 1;
    var front := ns[..k];
    if RenderAll(front).Failure? {
      RenderAllFailsAtFirstFailure(front);
      var i :| 0 <= i < |front| && AllRender(front[..i]) && Render(front[i]) == Failure(RenderAll(front).error);
      assert front[..i] == ns[..i];
      assert front[i] == ns[i];
    } else {
      RenderAllSucceeds(front);
      assert Render(ns[k]) == Failure(RenderAll(ns).error);
    }
  }

  /** Conversely, a failing child whose predecessors all render makes the
      whole loop fail with that child's error. */
  lemma ChildFailurePropagates(ns: seq<Node>, i: nat)
    requires i < |ns| && AllRender(ns[..i]) && Render(ns[i]).Failure?
    ensures RenderAll(ns) == Failure(Render(ns[i]).error)
  {
    RenderAllSucceeds(ns[..i]);
    assert ns[..i + 1][..i] == ns[..i];
    RenderAllKeepsFailure(ns, i + 1);
  }

  // ---------------------------------------------------------------------------
  // Parents

  /** `ParentNode.to_html`: the tag is checked first, then the children. */
  lemma RenderParentChecks(tag: Option<string>, children: Children, props: Option<Props>)
    ensures (tag.None? || tag.value == "") ==> Render(Parent(tag, children, props)) == Failure(InvalidTag)
    ensures tag.Some? && tag.value != "" && (children.Absent? || children.nodes == [])
            ==> Render(Parent(tag, children, props)) == Failure(InvalidChildren)
  {
  }

  /** A parent with a tag and children renders as its open tag, every child
      in order with no separator, and its close tag; otherwise it raises the
      first failing child's error. */
  lemma RenderParent(tag: string, cs: seq<Node>, props: Option<Props>)
    requires tag != "" && cs != []
    ensures AllRender(cs) ==> Render(Parent(Some(tag), Present(cs), props))
                              == Success("<" + tag + PropsHtml(props) + ">" + ConcatRenders(cs) + "</" + tag + ">")
    ensures !AllRender(cs) ==> exists i :: 0 <= i < |cs| && AllRender(cs[..i]) && Render(cs[i]).Failure?
                                          && Render(Parent(Some(tag), Present(cs), props)) == Failure(Render(cs[i]).error)
  {
    RenderAllSucceeds(cs);
    if !AllRender(cs) {
      RenderAllFailsAtFirstFailure(cs);
    }
  }

  /** A parent with a single child and no attributes wraps that child's
      render in its own tag. */
  lemma OnlyChildRenders(tag: string, child: Node, inner: string)
    requires tag != "" && Render(child) == Success(inner)
    ensures Render(Parent(Some(tag), Present([child]), None)) == Success("<" + tag + ">" + inner + "</" + tag + ">")
  {
    RenderAllSingle(child);
    ElementWithoutProps(tag, inner);
  }

  // ---------------------------------------------------------------------------
  // Whole trees

  /** A tree renders exactly when it has the shape the constructors establish. */
  lemma {:induction false} RenderSucceedsIffWellFormed(n: Node)
    ensures Render(n).Success? <==> WellFormed(n)
    decreases n
  {
    match n
    case Leaf(_, _, _) =>
    case Parent(tag, children, props) =>
      if children.Present? {
        var cs := children.nodes;
        forall i | 0 <= i < |cs| ensures Render(cs[i]).Success? <==> WellFormed(cs[i]) {
          RenderSucceedsIffWellFormed(cs[i]);
        }
        RenderAllSucceeds(cs);
      }
  }

  /** Rendering only ever raises its own three errors, never a constructor's
      or the converter's, however deep the tree. */
  lemma {:induction false} RenderRaisesOnlyRenderErrors(n: Node)
    requires Render(n).Failure?
    ensures Render(n).error.IsRenderError()
    decreases n
  {
    match n
    case Leaf(_, _, _) =>
    case Parent(tag, children, props) =>
      if tag.Some? && tag.value != "" && children.Present? && children.nodes != [] {
        var cs := children.nodes;
        RenderAllFailsAtFirstFailure(cs);
        var i :| 0 <= i < |cs| && AllRender(cs[..i]) && Render(cs[i]) == Failure(RenderAll(cs).error);
        RenderRaisesOnlyRenderErrors(cs[i]);
      }
  }

  /** Nodes built only through the two constructors never raise when rendered,
      as long as nobody reassigns their attributes. */
  lemma ConstructedNodesRender(tag: Option<string>, val: Option<string>, cs: seq<Node>, props: Option<Props>)
    requires forall i :: 0 <= i < |cs| ==> WellFormed(cs[i])
    ensures MkLeaf(tag, val, props).Success? ==> Render(MkLeaf(tag, val, props).value).Success?
    ensures MkParent(tag, Present(cs), props).Success? ==>
              && WellFormed(MkParent(tag, Present(cs), props).value)
              && Render(MkParent(tag, Present(cs), props).value).Success?
  {
    if MkParent(tag, Present(cs), props).Success? {
      RenderSucceedsIffWellFormed(MkParent(tag, Present(cs), props).value);
    }
  }
}
