/** Every `ValueError` the core raises, one case per distinct message. */
module Errors {
  import TextNodes

  datatype Error =
    // LeafNode.__init__: "LeafNode requires a value"
    | MissingValue
    // LeafNode.to_html: "Invalid HTML: LeafNode must have a value"
    | InvalidValue
    // ParentNode.__init__: "ParentNode requires a tag"
    | MissingTag
    // ParentNode.__init__: "ParentNode requires a non-empty list of children"
    | EmptyChildren
    // ParentNode.to_html: "Invalid HTML: ParentNode requires a tag to render"
    | InvalidTag
    // ParentNode.to_html: "Invalid HTML: ParentNode requires children to render"
    | InvalidChildren
    // text_node_to_html_node: "Link TextNode must have a url"
    | MissingUrl
    // text_node_to_html_node: "Image TextNode must have both url and text for alt attribute"
    | MissingAltOrUrl
    // text_node_to_html_node: "Unhandled text node type: ..."
    | UnhandledKind(kind: TextNodes.TextType)
  {
    /** The errors `to_html` can raise, as opposed to the constructors and the converter. */
    predicate IsRenderError() {
      InvalidValue? || InvalidTag? || InvalidChildren?
    }
  }
}
