/** The document tree the SVG back end builds: element nodes with a tag, an
    attribute map, text content and an ordered list of children, plus
    comment nodes. Trees are values; appending a child yields a new node. */
module Dom {

  datatype Option<+T> = None | Some(value: T)

  datatype Node =
    | Element(tag: string, attrs: map<string, string>, text: string, children: seq<Node>)
    | Comment(data: string)

  /** An element without text and without children. */
  function Leaf(tag: string, attrs: map<string, string>): Node
  {
    Element(tag, attrs, "", [])
  }

  /** appendChild on an element. */
  function WithChild(parent: Node, child: Node): (r: Node)
    requires parent.Element?
  {
    parent.(children := parent.children + [child])
  }

  predicate HasId(n: Node, id: string)
  {
    n.Element? && "id" in n.attrs && n.attrs["id"] == id
  }
}
