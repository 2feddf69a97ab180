/** The data both copies of ResXFile push through the resource library: the
    in-memory ResXEntry, and the records of a .resx container as the
    ResXResourceReader enumerates them and the ResXResourceWriter receives
    them. The container's XML layout is not modelled; a container is the
    ordered sequence of its records. */
module Container {

  /** ResXEntry: one resource as callers see it. */
  datatype Entry = Entry(id: string, value: string, comment: string)

  /** The comment slot of a ResXDataNode: either never set, or set to a text. */
  datatype Comment = NoComment | Comment(text: string)

  /** A ResXDataNode holding a string resource: the key it is stored under,
      its value and its comment. */
  datatype Record = Record(id: string, value: string, comment: Comment)

  /** ResXDataNode.Comment as a reader sees it: a node whose comment was never
      set reads as the empty string. */
  function CommentText(c: Comment): (text: string)
    ensures c.NoComment? ==> text == ""
    ensures c.Comment? ==> text == c.text
  {
    match c
    case NoComment => ""
    case Comment(text) => text
  }

  /** The ResXResourceWriter a Write call opens: a sink that appends every
      node it is given to the container, in the order given. Opening it
      truncates the container, so a fresh writer starts out empty. */
  class ResourceWriter {
    var records: seq<Record>

    constructor ()
      ensures records == []
    {
      records := [];
    }

    method AddResource(node: Record)
      modifies this
      ensures records == old(records) + [node]
    {
      records := records + [node];
    }
  }
}
