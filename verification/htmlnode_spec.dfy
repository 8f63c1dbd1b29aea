/** The value-level meaning of src/htmlnode.py: what a node holds, how its
    attribute dictionary is written out, what `to_html` produces or raises, and
    what the `LeafNode` and `ParentNode` constructors accept. The mutable
    objects themselves are in module HtmlNodes, whose methods are proved to
    compute these functions. */
module HtmlSpec {
  import opened Wrappers
  import opened Errors

  /** An attribute dictionary, as its items in iteration order. */
  type Props = seq<(string, string)>

  /** A node as `to_html` sees it. Every field can be `None` (or empty),
      because callers may reassign any attribute after construction and
      rendering re-checks everything. A `ParentNode`'s `value` is never read
      by rendering and is not kept here. */
  datatype Node =
    | Leaf(tag: Option<string>, value: Option<string>, props: Option<Props>)
    | Parent(tag: Option<string>, children: Children, props: Option<Props>)

  /** A parent's `children` attribute: `None` or a list of nodes. (A dedicated
      type rather than `Option<seq<Node>>`, so that Dafny sees each child as
      structurally smaller than its parent.) */
  datatype Children = Absent | Present(nodes: seq<Node>)

  /** One dictionary item written as `key="value"`, inserted verbatim (no escaping). */
  function Attribute(item: (string, string)): string {
    item.0 + "=\"" + item.1 + "\""
  }

  /** The list `attribute_parts` that `props_to_html` builds, one entry per item. */
  function AttributeParts(items: Props): (parts: seq<string>)
    ensures |parts| == |items|
  {
    seq(|items|, i requires 0 <= i < |items| => Attribute(items[i]))
  }

  /** Python's `sep.join(parts)`. */
  function Join(parts: seq<string>, sep: string): string {
    if |parts| == 0 then ""
    else if |parts| == 1 then parts[0]
    else parts[0] + sep + Join(parts[1..], sep)
  }

  /** `props_to_html`: nothing for an absent or empty dictionary, otherwise a
      space followed by the items joined by single spaces. */
  function PropsHtml(props: Option<Props>): (s: string)
    ensures s == "" <==> props.None? || props.value == []
    ensures s != "" ==> s[0] == ' '
  {
    if props.None? || |props.value| == 0 then ""
    else " " + Join(AttributeParts(props.value), " ")
  }

  /** The markup around an element's content: `<tag attrs>inner</tag>`. */
  function Element(tag: string, props: Option<Props>, inner: string): string {
    "<" + tag + PropsHtml(props) + ">" + inner + "</" + tag + ">"
  }

  /** `LeafNode.to_html` and `ParentNode.to_html`. */
  function Render(n: Node): Result<string, Error>
    decreases n
  {
    match n
    case Leaf(tag, value, props) =>
      if value.None? then Failure(InvalidValue)
      else if tag.None? then Success(value.value)
      else Success(Element(tag.value, props, value.value))
    case Parent(tag, children, props) =>
      if tag.None? || tag.value == "" then Failure(InvalidTag)
      else if children.Absent? || |children.nodes| == 0 then Failure(InvalidChildren)
      else
        match RenderAll(children.nodes)
        case Failure(e) => Failure(e)
        case Success(inner) => Success(Element(tag.value, props, inner))
  }

  /** The children loop of `ParentNode.to_html`: each child rendered in list
      order and appended, stopping at the first child that raises. Defined on
      the last child so that it follows the loop one step at a time. */
  function RenderAll(ns: seq<Node>): Result<string, Error>
    decreases ns
  {
    if |ns| == 0 then Success("")
    else
      match RenderAll(ns[..|ns| - 1])
      case Failure(e) => Failure(e)
      case Success(front) =>
        match Render(ns[|ns| - 1])
        case Failure(e) => Failure(e)
        case Success(last) => Success(front + last)
  }

  /** `LeafNode.__init__`: refuses a missing value, otherwise keeps what it is given. */
  function MkLeaf(tag: Option<string>, value: Option<string>, props: Option<Props>): (r: Result<Node, Error>)
    ensures r.Success? <==> value.Some?
    ensures r.Failure? ==> r.error == MissingValue
    ensures r.Success? ==> r.value.Leaf? && r.value.tag == tag && r.value.value == value && r.value.props == props
  {
    if value.None? then Failure(MissingValue) else Success(Leaf(tag, value, props))
  }

  /** `ParentNode.__init__`: refuses a missing or empty tag first, then a
      missing or empty child list, otherwise keeps what it is given. */
  function MkParent(tag: Option<string>, children: Children, props: Option<Props>): (r: Result<Node, Error>)
    ensures r.Success? <==> tag.Some? && tag.value != "" && children.Present? && children.nodes != []
    ensures (tag.None? || tag.value == "") ==> r == Failure(MissingTag)
    ensures r.Failure? && tag.Some? && tag.value != "" ==> r.error == EmptyChildren
    ensures r.Success? ==> r.value.Parent? && r.value.tag == tag && r.value.children == children && r.value.props == props
  {
    if tag.None? || tag.value == "" then Failure(MissingTag)
    else if children.Absent? || |children.nodes| == 0 then Failure(EmptyChildren)
    else Success(Parent(tag, children, props))
  }

  /** The shape the two constructors establish, all the way down: every leaf
      has a value, every parent a non-empty tag and a non-empty child list. */
  predicate WellFormed(n: Node)
    decreases n
  {
    match n
    case Leaf(_, value, _) => value.Some?
    case Parent(tag, children, _) =>
      && tag.Some? && tag.value != ""
      && children.Present? && |children.nodes| > 0
      && forall i :: 0 <= i < |children.nodes| ==> WellFormed(children.nodes[i])
  }

  /** Once one child has raised, later children do not change the outcome. */
  lemma {:induction false} RenderAllKeepsFailure(ns: seq<Node>, k: nat)
    requires k <= |ns|
    requires RenderAll(ns[..k]).Failure?
    ensures RenderAll(ns) == RenderAll(ns[..k])
    decreases |ns| - k
  {
    if k < |ns| {
      assert ns[..k + 1][..k] == ns[..k];
      RenderAllKeepsFailure(ns, k + 1);
    } else {
      assert ns[..k] == ns;
    }
  }
}
