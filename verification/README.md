# staticsites: HTML nodes and the text-fragment converter

This project models the core of a small static-site generator. It covers two
parts.

- **The element tree and its renderer** (`src/htmlnode.py`).
  - A `LeafNode` carries an optional tag, a required value and an ordered
    attribute dictionary.
  - A `ParentNode` carries a required non-empty tag, a required non-empty list
    of child nodes and the same attribute dictionary.
  - `props_to_html` writes the dictionary as ` key="value" key2="value2"`.
  - `to_html` renders a tree into an HTML string or raises `ValueError`.
- **The converter** `text_node_to_html_node` (`src/main.py`). It turns one
  inline text fragment (plain, bold, italic, code, link or image) into a leaf
  node, or raises.

The model has two layers.

- **Values.** Module `HtmlSpec` reads a node as a value: the datatype `Node`,
  with every attribute optional. It defines what rendering produces (`Render`,
  `RenderAll`, `PropsHtml`) and what the two constructors accept (`MkLeaf`,
  `MkParent`).
- **Objects.** Module `HtmlNodes` models the Python objects themselves as a
  class `HtmlNode`.
  - Its `tag`, `value`, `children` and `props` fields are reassigned in place,
    as the repository's tests do.
  - `Model()` reads an object graph back as an `HtmlSpec.Node`.
  - The two loops of the source are `PropsToHtml` and `ParentToHtml`. Each is
    proved to compute the value-level function.

Module `RenderFacts` proves what rendering promises against independent
reference definitions:

- the attribute string as a space before every item;
- a parent's content as the children's renders concatenated front to back;
- well-formedness, meaning the shape the constructors establish.

Module `Convert` models the converter and proves what each fragment kind
becomes and how it renders. Module `Scenarios` replays the repository's
mutation and nesting tests on the objects.

Raising `ValueError` is modelled as `Result.Failure`. Module `Errors` has one
`Error` case per raise site in the source. A Dafny function is deterministic,
so equal fragments always convert to equal results.

## Model

| member | source | states |
|---|---|---|
| HtmlSpec.PropsHtml | src/htmlnode.py:13-22 | The attribute string is empty exactly when the dictionary is absent or empty. Otherwise it starts with a space. |
| HtmlSpec.MkLeaf | src/htmlnode.py:29-32 | A leaf can be built exactly when the value is not None; otherwise the error is the missing-value error. A built leaf holds the given tag, value and props. |
| HtmlSpec.MkParent | src/htmlnode.py:45-53 | A parent can be built exactly when the tag is non-empty and the children are present and non-empty. A missing or empty tag is reported first, then missing or empty children. A built parent stores tag, children and props. |
| HtmlSpec.RenderAllKeepsFailure | src/htmlnode.py:61-62 | Once a child has raised, the children after it do not change the outcome of the loop. |
| HtmlNodes.HtmlNode.Init | src/htmlnode.py:4-8 | `HTMLNode.__init__` stores the four attributes exactly as given. The new object is a valid tree whose footprint is itself plus its children's. |
| HtmlNodes.HtmlNode.NewLeaf | src/htmlnode.py:29-32 | `LeafNode(...)` succeeds exactly when `MkLeaf` does, with the same error. It returns a fresh valid object with no children whose model is the leaf `MkLeaf` builds. |
| HtmlNodes.HtmlNode.NewParent | src/htmlnode.py:45-53 | `ParentNode(...)` succeeds exactly when the tag is non-empty and the children are non-empty. The tag error is reported before the children error. It returns a fresh valid object holding tag, children and props, with value None. |
| HtmlNodes.HtmlNode.SetTag | src/htmlnode.py:5 | Reassigning `tag` changes only `tag` and keeps the object a valid tree. |
| HtmlNodes.HtmlNode.SetValue | src/htmlnode.py:6 | Reassigning `value` changes only `value` and keeps the object a valid tree. |
| HtmlNodes.HtmlNode.SetChildren | src/htmlnode.py:7 | Reassigning `children` (to None, an empty list or any list of valid trees not containing the node) changes only `children` and keeps the object a valid tree. |
| HtmlNodes.HtmlNode.PropsToHtml | src/htmlnode.py:13-22 | The loop that collects `key="value"` parts and joins them computes exactly `PropsHtml` of the object's props. |
| HtmlNodes.HtmlNode.ToHtml | src/htmlnode.py:34-64 | Rendering an object, dispatched on its class, returns exactly `Render` of the object's model, error included. |
| HtmlNodes.HtmlNode.LeafToHtml | src/htmlnode.py:34-42 | `LeafNode.to_html` returns exactly `Render` of the leaf it holds. |
| HtmlNodes.HtmlNode.ParentToHtml | src/htmlnode.py:55-64 | `ParentNode.to_html` checks the tag, then the children, then renders the children in order, stopping at the first that raises. It returns exactly `Render` of the object's model. |
| RenderFacts.PropsHtmlIsSpaced | src/htmlnode.py:13-22 | The attribute string is every item written as ` key="value"`, in iteration order, with the value inserted verbatim. An absent dictionary gives nothing. |
| RenderFacts.PropsHtmlAppend | src/htmlnode.py:17-22 | The attribute string of items `a` then `b` is that of `a` followed by that of `b`, so iteration order is kept. |
| RenderFacts.PropsHtmlSingle | src/htmlnode.py:20-22 | A single item renders as ` key="value"`. |
| RenderFacts.ElementWithoutProps | src/htmlnode.py:42 | Without attributes an element is `<tag>`, its content, then `</tag>`. |
| RenderFacts.RenderLeaf | src/htmlnode.py:34-42 | A leaf with no value raises whatever its tag. With no tag it renders to its bare value, ignoring props. With any tag, even the empty string, it renders as `<tag attrs>value</tag>`. |
| RenderFacts.RenderAllSucceeds | src/htmlnode.py:60-62 | The children loop succeeds exactly when every child renders. Its result is then the children's renders concatenated in list order with nothing between them. |
| RenderFacts.RenderAllSingle | src/htmlnode.py:60-62 | An only child contributes exactly its own render, or its own error. |
| RenderFacts.RenderAllFailsAtFirstFailure | src/htmlnode.py:60-62 | When the children loop fails, its error is that of a child all of whose predecessors rendered. |
| RenderFacts.ChildFailurePropagates | src/htmlnode.py:60-62 | A failing child whose predecessors all render makes the loop fail with that child's error. |
| RenderFacts.RenderParentChecks | src/htmlnode.py:56-59 | A parent with a missing or empty tag raises the tag error, whatever its children. Otherwise, missing or empty children raise the children error. |
| RenderFacts.RenderParent | src/htmlnode.py:55-64 | A parent with a tag and children renders as `<tag attrs>`, every child's render in order, then `</tag>`. Otherwise it raises the error of the first failing child. |
| RenderFacts.OnlyChildRenders | src/htmlnode.py:60-64 | A parent without attributes wraps its only child's render in its own tag. |
| RenderFacts.RenderSucceedsIffWellFormed | src/htmlnode.py:34-64 | A tree renders without raising exactly when every leaf has a value and every parent has a non-empty tag and non-empty children, all the way down. |
| RenderFacts.RenderRaisesOnlyRenderErrors | src/htmlnode.py:34-64 | Rendering only raises its own three errors (missing value, tag or children), however deep the tree. |
| RenderFacts.ConstructedNodesRender | src/htmlnode.py:29-53 | A node built by either constructor from well-formed children is well formed and renders without raising. |
| Convert.TextNodeToHtmlNode | src/main.py:4-25 | Conversion succeeds exactly when the text is present, the kind is one of the six, and a link or image has a url. The result is a leaf whose value is the text, or `""` for an image. An unknown kind raises an error carrying that kind. |
| Convert.ConvertFormatted | src/main.py:6-15 | Plain, bold, italic and code fragments become leaves with tag None, `b`, `i` or `code`, the text as value and no props. The url is ignored. |
| Convert.ConvertLink | src/main.py:16-19 | A link without a url raises the missing-url error before any node is built. With a url it becomes an `a` leaf with props exactly `[("href", url)]`. |
| Convert.ConvertImage | src/main.py:20-23 | An image without url or text raises the image error. With both it becomes an `img` leaf with value `""` and props `src` then `alt`. |
| Convert.ConvertMissingText | src/main.py:6-19 | For plain, bold, italic, code and (url-bearing) link fragments, a missing text fails through the leaf constructor's missing-value check. |
| Convert.ConvertThenRenderFormatted | src/main.py:6-15 | A converted plain fragment renders to its raw text. A bold, italic or code fragment renders as `<tag>text</tag>`. |
| Convert.ConvertThenRenderLink | src/main.py:19 | A converted link renders as `<a href="url">text</a>`. |
| Convert.ImageAttributes | src/main.py:23 | An image's attributes render as ` src="url" alt="text"`. |
| Convert.ConvertThenRenderImage | src/main.py:23 | A converted image renders as `<img src="url" alt="text"></img>`, with a closing tag. |
| Convert.ConvertedNodesRender | src/main.py:4-25 | Every node the converter produces is well formed and renders without raising. |
| Convert.ConvertedFragmentsUnderParent | src/main.py:4-25 | Converted fragments placed in order under a parent render as the parent's tag around their renders, concatenated with nothing between them. |
| Scenarios.BoldLeafRenders | src/test_htmlnode.py:144-153 | A `b` leaf renders as `<b>text</b>`. |
| Scenarios.SpanOfBoldRenders | src/test_htmlnode.py:144-153 | A `span` around that leaf renders as `<span><b>text</b></span>`. |
| Scenarios.GrandchildRenders | src/test_htmlnode.py:144-153 | A `div` around that span renders as `<div><span><b>text</b></span></div>`. |

## Left out

- `HTMLNode.to_html` (src/htmlnode.py:10-11) only raises `NotImplementedError`. Base-class objects are not modelled; `NodeClass` has only the two subclasses.
- `__repr__` (src/htmlnode.py:24-26) is debug formatting with no contract.
- `TextNode` and `TextType` are defined in src/textnode.py, which is not part of this model. They are plain datatypes with structural equality, and `TextNode.__eq__` is not modelled.
- Error message strings are not modelled. Each raise site is a distinct `Error` case.
- The `isinstance(children, list)` check of `ParentNode.__init__` holds by typing: children are a sequence of nodes.
- An attribute dictionary is an ordered sequence of pairs. Python's key uniqueness is not modelled.
- Attribute values are strings. Python would format any value with `str`, which is not modelled.
- Recursion-depth limits are not modelled.
- Object graphs in which a node is its own descendant are excluded by `HtmlNode.Valid`. Python would recurse until the stack runs out on such a graph.
- `HtmlNodes.HtmlNode.SetChildren` and the other setters frame only the node they change. Reassigning a field of a descendant object is outside what their contracts describe.
- A `children` list is held as a sequence value. Mutating a list that two parents share, through the list itself, is not modelled.
- `Convert.TextNodeToHtmlNode` returns the new leaf as a value rather than as an allocated object. `HtmlNodes.HtmlNode.NewLeaf` builds the object for it.
- The disabled image test expects the void element `<img ...>`. The code writes `<img ...></img>`, which is what the model states.
