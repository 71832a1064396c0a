/** The client's view of the server's records (the shapes the REST API
    returns), and the object model of a post held in the browser.

    A post arrives as a freshly parsed JSON object, so nothing inside it is
    shared with anything else except through the post object itself. The
    review screen copies posts shallowly (`{ ...post }`), so every copy keeps
    a reference to the same comments array, and all edits reach the comment
    and aspect objects through that array. The model therefore keeps the
    comments array as one mutable object (`CommentList`) whose items are
    values: changing an item of the list is what mutating a comment or an
    aspect object in place looks like to every holder of the post. */
module ApiTypes {
  import opened Wrappers
  import opened Choices

  datatype AspectDTO = AspectDTO(id: Option<int>, aspectName: string, aspectText: string, sentiment: Sentiment)

  datatype CommentDTO = CommentDTO(id: Option<int>, text: string, generalSentiment: Sentiment, aspects: seq<AspectDTO>)

  /** The content of a post as it is read or sent over the network. */
  datatype PostValue = PostValue(id: Option<int>, caption: string, source: string, status: Status, comments: seq<CommentDTO>)

  /** The comments array of a post object. */
  class CommentList {
    var items: seq<CommentDTO>

    constructor (items: seq<CommentDTO>)
      ensures this.items == items
    {
      this.items := items;
    }
  }

  /** A post object: its scalar fields, and a reference to its comments array.
      Two shallow copies of one post are equal values. */
  datatype PostDTO = PostDTO(id: Option<int>, caption: string, source: string, status: Status, comments: CommentList)

  /** What a post object shows right now. */
  function Value(p: PostDTO): PostValue
    reads p.comments
  {
    PostValue(p.id, p.caption, p.source, p.status, p.comments.items)
  }

  /** A fresh post object holding the given content, as JSON parsing makes one. */
  method FromValue(v: PostValue) returns (p: PostDTO)
    ensures fresh(p.comments)
    ensures Value(p) == v
  {
    var list := new CommentList(v.comments);
    p := PostDTO(v.id, v.caption, v.source, v.status, list);
  }
}
