/** The node objects of src/htmlnode.py. Their four attributes are ordinary
    mutable fields; `Model` reads an object graph back as an HtmlSpec.Node, and
    the two rendering methods are proved to compute HtmlSpec's functions of it. */
module HtmlNodes {
  import opened Wrappers
  import opened Errors
  import opened HtmlSpec

  /** The Python class an object was created as. */
  datatype NodeClass = LeafNode | ParentNode

  class HtmlNode {
    const cls: NodeClass
    var tag: Option<string>
    var value: Option<string>
    var children: Option<seq<HtmlNode>>
    var props: Option<Props>
    ghost var Repr: set<object>

    /** The object and everything reachable through `children` is in `Repr`,
        and no node is its own descendant. Siblings may be the same object. */
    ghost predicate Valid()
      reads this, Repr
      decreases Repr
    {
      && this in Repr
      && (children.Some? ==>
            forall i :: 0 <= i < |children.value| ==>
              && children.value[i] in Repr
              && children.value[i].Repr <= Repr
              && this !in children.value[i].Repr
              && children.value[i].Valid())
    }

    /** The node as HtmlSpec sees it, with each child replaced by its own model. */
    ghost function Model(): Node
      requires Valid()
      reads this, Repr
      decreases Repr, 1, 0
    {
      match cls
      case LeafNode => Leaf(tag, value, props)
      case ParentNode =>
        Parent(tag, if children.None? then Absent else Present(ChildModels(|children.value|)), props)
    }

    /** The models of the first `k` children. */
    ghost function ChildModels(k: nat): (ms: seq<Node>)
      requires Valid() && children.Some? && k <= |children.value|
      reads this, Repr
      ensures |ms| == k
      decreases Repr, 0, k
    {
      if k == 0 then [] else ChildModels(k - 1) + [children.value[k - 1].Model()]
    }

    lemma {:induction false} ChildModelsPrefix(k: nat, m: nat)
      requires Valid() && children.Some? && k <= m <= |children.value|
      ensures ChildModels(k) == ChildModels(m)[..k]
      decreases m
    {
      if k < m {
        ChildModelsPrefix(k, m - 1);
      }
    }

    /** The objects `children` refers to, with everything below them. */
    static ghost function ReprOf(cs: Option<seq<HtmlNode>>): set<object>
      reads if cs.Some? then set i | 0 <= i < |cs.value| :: cs.value[i] else {}
    {
      if cs.None? then {} else set i, o | 0 <= i < |cs.value| && o in cs.value[i].Repr :: o
    }

    /** Every node in `cs` is a valid tree. */
    static ghost predicate AllValid(cs: Option<seq<HtmlNode>>)
      reads if cs.Some? then set i | 0 <= i < |cs.value| :: cs.value[i] else {}, ReprOf(cs)
    {
      cs.Some? ==> forall i :: 0 <= i < |cs.value| ==> cs.value[i].Valid()
    }

    /** `HTMLNode.__init__`: stores the four attributes as given. */
    constructor Init(cls: NodeClass, tag: Option<string>, value: Option<string>,
                     children: Option<seq<HtmlNode>>, props: Option<Props>)
      requires AllValid(children)
      ensures Valid()
      ensures this.cls == cls && this.tag == tag && this.value == value
      ensures this.children == children && this.props == props
      ensures Repr == {this} + ReprOf(children)
    {
      this.cls := cls;
      this.tag := tag;
      this.value := value;
      this.children := children;
      this.props := props;
      Repr := {this} + ReprOf(children);
    }

    /** `LeafNode(tag, value, props)`: raises when `value` is `None`. */
    static method NewLeaf(tag: Option<string>, value: Option<string>, props: Option<Props>)
      returns (r: Result<HtmlNode, Error>)
      ensures r.Success? <==> MkLeaf(tag, value, props).Success?
      ensures r.Failure? ==> r.error == MkLeaf(tag, value, props).error
      ensures r.Success? ==>
        && fresh(r.value) && r.value.Valid() && r.value.Repr == {r.value}
        && r.value.cls == LeafNode && r.value.children.None?
        && r.value.Model() == MkLeaf(tag, value, props).value
    {
      if value.None? {
        return Failure(MissingValue);
      }
      var n := new HtmlNode.Init(LeafNode, tag, value, None, props);
      return Success(n);
    }

    /** `ParentNode(tag, children, props)`: raises when `tag` is `None` or
        empty, then when `children` is `None` or empty; the new node's
        `value` is `None`. */
    static method NewParent(tag: Option<string>, children: Option<seq<HtmlNode>>, props: Option<Props>)
      returns (r: Result<HtmlNode, Error>)
      requires AllValid(children)
      ensures r.Success? <==> tag.Some? && tag.value != "" && children.Some? && children.value != []
      ensures (tag.None? || tag.value == "") ==> r == Failure(MissingTag)
      ensures r.Failure? && tag.Some? && tag.value != "" ==> r.error == EmptyChildren
      ensures r.Success? ==>
        && fresh(r.value) && r.value.Valid() && r.value.Repr == {r.value} + ReprOf(children)
        && r.value.cls == ParentNode && r.value.tag == tag && r.value.value.None?
        && r.value.children == children && r.value.props == props
    {
      if tag.None? || tag.value == "" {
        return Failure(MissingTag);
      }
      if children.None? || |children.value| == 0 {
        return Failure(EmptyChildren);
      }
      var n := new HtmlNode.Init(ParentNode, tag, None, children, props);
      return Success(n);
    }

    /** `node.tag = t`. */
    method SetTag(t: Option<string>)
      requires Valid()
      modifies this
      ensures Valid() && Repr == old(Repr)
      ensures tag == t && value == old(value) && children == old(children) && props == old(props)
    {
      tag := t;
    }

    /** `node.value = v`. */
    method SetValue(v: Option<string>)
      requires Valid()
      modifies this
      ensures Valid() && Repr == old(Repr)
      ensures value == v && tag == old(tag) && children == old(children) && props == old(props)
    {
      value := v;
    }

    /** `node.children = cs`, for a list that does not contain this node
        anywhere below it. */
    method SetChildren(cs: Option<seq<HtmlNode>>)
      requires Valid() && AllValid(cs) && this !in ReprOf(cs)
      modifies this
      ensures Valid() && Repr == {this} + ReprOf(cs)
      ensures children == cs && tag == old(tag) && value == old(value) && props == old(props)
    {
      children := cs;
      Repr := {this} + ReprOf(cs);
    }

    /** `props_to_html`: builds the list of `key="value"` parts item by item,
        then joins it behind a leading space. */
    method PropsToHtml() returns (s: string)
      ensures s == PropsHtml(props)
    {
      if props.None? || |props.value| == 0 {
        return "";
      }
      var items := props.value;
      var parts: seq<string> := [];
      for i := 0 to |items|
        invariant |parts| == i
        invariant forall j :: 0 <= j < i ==> parts[j] == Attribute(items[j])
      {
        parts := parts + [Attribute(items[i])];
      }
      assert parts == AttributeParts(items);
      s := " " + Join(parts, " ");
    }

    /** `to_html`, dispatched on the class the object was created as. */
    method ToHtml() returns (r: Result<string, Error>)
      requires Valid()
      ensures r == Render(Model())
      decreases Repr, 1
    {
      match cls {
        case LeafNode => r := LeafToHtml();
        case ParentNode => r := ParentToHtml();
      }
    }

    /** `LeafNode.to_html`: the value check comes before the tag check. */
    method LeafToHtml() returns (r: Result<string, Error>)
      requires cls == LeafNode
      ensures r == Render(Leaf(tag, value, props))
    {
      if value.None? {
        return Failure(InvalidValue);
      }
      if tag.None? {
        return Success(value.value);
      }
      var attributes := PropsToHtml();
      return Success("<" + tag.value + attributes + ">" + value.value + "</" + tag.value + ">");
    }

    /** `ParentNode.to_html`: checks the tag, then the children, then renders
        the children one after the other, stopping at the first that raises. */
    method ParentToHtml() returns (r: Result<string, Error>)
      requires Valid() && cls == ParentNode
      ensures r == Render(Model())
      decreases Repr, 0
    {
      if tag.None? || tag.value == "" {
        return Failure(InvalidTag);
      }
      if children.None? || |children.value| == 0 {
        return Failure(InvalidChildren);
      }
      var cs := children.value;
      var html := "";
      for i := 0 to |cs|
        invariant RenderAll(ChildModels(i)) == Success(html)
      {
        var child := cs[i].ToHtml();
        assert ChildModels(i + 1)[..i] == ChildModels(i);
        if child.Failure? {
          ChildModelsPrefix(i + 1, |cs|);
          RenderAllKeepsFailure(ChildModels(|cs|), i + 1);
          return Failure(child.error);
        }
        html := html + child.value;
      }
      var attributes := PropsToHtml();
      return Success("<" + tag.value + attributes + ">" + html + "</" + tag.value + ">");
    }
  }
}
