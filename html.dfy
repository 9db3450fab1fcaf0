/** The node tree produced by golang.org/x/net/html, reduced to what the
    tag extractor reads: the node kind, the tag name, the attribute list
    and the children in document (sibling) order. */
module Html {

  /** html.NodeType */
  datatype NodeKind = ErrorNode | TextNode | DocumentNode | ElementNode | CommentNode | DoctypeNode | RawNode

  /** html.Attribute without its namespace, which the crawler never reads. */
  datatype Attribute = Attribute(key: string, val: string)

  /** An html.Node; FirstChild/NextSibling chains become `children`. */
  datatype Node = Node(kind: NodeKind, data: string, attrs: seq<Attribute>, children: seq<Node>)
}
