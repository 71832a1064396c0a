/** The review screen of one post: it loads the post into the verification
    context on mount, edits its comments and aspects, steps through the
    edit history and saves.

    Every edit handler copies the post shallowly and then changes the
    comment and aspect objects reached through the comments array in place
    before dispatching the copy. The copy shares that array with the post on
    screen, with every snapshot in the history and with the post object the
    screen was opened with. */
module PostReview {
  import opened Wrappers
  import opened Choices
  import opened ApiTypes
  import opened VerificationContext
  import JsArrays
  import DraftComments

  /** One edit the screen offers, addressed by positions in the arrays. */
  datatype ReviewEdit =
    | AddAspectEdit(commentIndex: int)
    | RemoveAspectEdit(commentIndex: int, aspectIndex: int)
    | TextEdit(commentIndex: int, text: string)
    | AspectEdit(commentIndex: int, aspectIndex: int, field: DraftComments.AspectField)
    | SentimentEdit(commentIndex: int, sentiment: Sentiment)

  /** The aspect the add button creates: no id yet, empty name and text. */
  const NewAspect: AspectDTO := AspectDTO(None, "", "", Neutral)

  /** The edit reaches an existing comment (and, for a field edit, an
      existing aspect). Otherwise reading a property of `undefined` throws
      before anything is changed or dispatched. Removing reads no aspect, so
      an aspect position past the end is allowed there. */
  predicate Applicable(cs: seq<CommentDTO>, e: ReviewEdit) {
    && 0 <= e.commentIndex < |cs|
    && (e.AspectEdit? ==> 0 <= e.aspectIndex < |cs[e.commentIndex].aspects|)
  }

  /** `array.splice(i, 1)`: removes the element at the relative position i,
      if there is one there. */
  function SpliceOne<T>(s: seq<T>, i: int): (r: seq<T>)
    ensures 0 <= i < |s| ==> r == s[..i] + s[i + 1..]
    ensures i >= |s| ==> r == s
    ensures -|s| <= i < 0 ==> r == s[..|s| + i] + s[|s| + i + 1..]
    ensures i < -|s| && |s| > 0 ==> r == s[1..]
    ensures |r| == if |s| == 0 || i >= |s| then |s| else |s| - 1
  {
    var k := JsArrays.RelativeIndex(i, |s|);
    if k < |s| then s[..k] + s[k + 1..] else s
  }

  /** Sets the one field the select or input names and keeps the others. */
  function SetDtoField(a: AspectDTO, field: DraftComments.AspectField): (r: AspectDTO)
    ensures r.id == a.id && r.aspectText == a.aspectText
    ensures field.AspectName? ==> r.aspectName == field.name && r.sentiment == a.sentiment
    ensures field.AspectSentiment? ==> r.sentiment == field.sentiment && r.aspectName == a.aspectName
  {
    match field
    case AspectName(name) => a.(aspectName := name)
    case AspectSentiment(s) => a.(sentiment := s)
  }

  /** What the edit does to the one comment it addresses. */
  function EditComment(c: CommentDTO, e: ReviewEdit): (r: CommentDTO)
    requires e.AspectEdit? ==> 0 <= e.aspectIndex < |c.aspects|
    ensures r.id == c.id
    ensures e.TextEdit? ==> r.text == e.text
    ensures !e.TextEdit? ==> r.text == c.text
    ensures e.SentimentEdit? ==> r.generalSentiment == e.sentiment
    ensures !e.SentimentEdit? ==> r.generalSentiment == c.generalSentiment
    ensures e.TextEdit? || e.SentimentEdit? ==> r.aspects == c.aspects
    ensures e.AddAspectEdit? ==> r.aspects == c.aspects + [NewAspect]
    ensures e.AspectEdit? ==>
      && |r.aspects| == |c.aspects|
      && (forall j :: 0 <= j < |c.aspects| && j != e.aspectIndex ==> r.aspects[j] == c.aspects[j])
      && r.aspects[e.aspectIndex] == SetDtoField(c.aspects[e.aspectIndex], e.field)
    ensures e.RemoveAspectEdit? ==> r.aspects == SpliceOne(c.aspects, e.aspectIndex)
  {
    match e
    case AddAspectEdit(_) => c.(aspects := c.aspects + [NewAspect])
    case RemoveAspectEdit(_, ai) => c.(aspects := SpliceOne(c.aspects, ai))
    case TextEdit(_, text) => c.(text := text)
    case AspectEdit(_, ai, field) => c.(aspects := c.aspects[ai := SetDtoField(c.aspects[ai], field)])
    case SentimentEdit(_, s) => c.(generalSentiment := s)
  }

  /** The comments array after the edit: only the addressed comment changes. */
  function EditComments(cs: seq<CommentDTO>, e: ReviewEdit): (r: seq<CommentDTO>)
    requires Applicable(cs, e)
    ensures |r| == |cs|
    ensures forall j :: 0 <= j < |cs| && j != e.commentIndex ==> r[j] == cs[j]
    ensures r[e.commentIndex] == EditComment(cs[e.commentIndex], e)
  {
    cs[e.commentIndex := EditComment(cs[e.commentIndex], e)]
  }

  /** Unlike the annotation wizard there is no last-aspect guard: removing
      the only aspect of a comment leaves it with none. */
  lemma RemoveLastAspect(cs: seq<CommentDTO>, ci: int)
    requires 0 <= ci < |cs| && |cs[ci].aspects| == 1
    ensures EditComments(cs, RemoveAspectEdit(ci, 0))[ci].aspects == []
  {
  }

  /** Adding an aspect and then removing the last one restores the comment. */
  lemma RemoveUndoesAdd(cs: seq<CommentDTO>, ci: int)
    requires 0 <= ci < |cs|
    ensures var added := EditComments(cs, AddAspectEdit(ci));
      EditComments(added, RemoveAspectEdit(ci, |cs[ci].aspects|)) == cs
  {
    var added := EditComments(cs, AddAspectEdit(ci));
    var back := EditComments(added, RemoveAspectEdit(ci, |cs[ci].aspects|));
    assert (cs[ci].aspects + [NewAspect])[..|cs[ci].aspects|] == cs[ci].aspects;
    assert back[ci] == cs[ci];
  }

  // ----- buttons -----

  predicate UndoEnabled<P>(s: State<P>) {
    s.currentIndex != 0
  }

  predicate RedoEnabled<P>(s: State<P>) {
    s.currentIndex != |s.history| - 1
  }

  predicate SaveEnabled<P>(s: State<P>) {
    !s.isSaving
  }

  /** The save button is disabled exactly while a save is in flight:
      START_SAVING disables it, END_SAVING and SET_ERROR enable it again,
      and no other action changes it. */
  lemma SaveButtonTracksSaving<P>(s: State<P>, a: Action<P>)
    ensures a.StartSaving? ==> !SaveEnabled(Reduce(s, a))
    ensures a.EndSaving? || a.SetError? ==> SaveEnabled(Reduce(s, a))
    ensures !Saving(a) ==> (SaveEnabled(Reduce(s, a)) <==> SaveEnabled(s))
  {
  }

  /** On a loaded post each history button is enabled exactly when the
      action it dispatches would move the cursor. */
  lemma ButtonsMatchReducer<P>(s: State<P>)
    requires Loaded(s)
    ensures UndoEnabled(s) <==> Reduce(s, Undo).currentIndex != s.currentIndex
    ensures RedoEnabled(s) <==> Reduce(s, Redo).currentIndex != s.currentIndex
  {
    UndoMoves(s);
    RedoMoves(s);
  }

  // ----- the screen -----

  class PostReviewScreen {
    const context: VerificationProvider
    const initialPost: PostDTO

    constructor (context: VerificationProvider, initialPost: PostDTO)
      ensures this.context == context && this.initialPost == initialPost
    {
      this.context := context;
      this.initialPost := initialPost;
    }

    /** The effect on mount: the post the screen was opened with is loaded. */
    method Mount()
      modifies context
      ensures context.state == Reduce(old(context.state), SetPost(initialPost))
    {
      context.SetPostOf(initialPost);
    }

    /** The edit as the handlers make it: the comments array of the post on
        screen is changed in place, then the same post is dispatched. With
        no post, or when the edit does not reach an existing element, nothing
        changes. */
    method EditInPlace(e: ReviewEdit) returns (applied: bool)
      modifies context, if context.state.post.Some? then {context.state.post.value.comments} else {}
      ensures old(context.state.post).None? ==> !applied && context.state == old(context.state)
      ensures old(context.state.post).Some? ==>
        var p := old(context.state.post).value;
        && applied == Applicable(old(p.comments.items), e)
        && (applied ==> p.comments.items == EditComments(old(p.comments.items), e)
                        && context.state == Reduce(old(context.state), UpdatePost(p)))
        && (!applied ==> p.comments.items == old(p.comments.items) && context.state == old(context.state))
    {
      applied := false;
      if context.state.post.None? {
        return;
      }
      var p := context.state.post.value;
      if !Applicable(p.comments.items, e) {
        return;
      }
      p.comments.items := EditComments(p.comments.items, e);
      applied := true;
      context.UpdatePostOf(p);
    }

    method HandleAddAspect(commentIndex: int) returns (applied: bool)
      modifies context, if context.state.post.Some? then {context.state.post.value.comments} else {}
      ensures old(context.state.post).None? ==> !applied && context.state == old(context.state)
      ensures old(context.state.post).Some? ==>
        var p := old(context.state.post).value;
        && applied == (0 <= commentIndex < |old(p.comments.items)|)
        && (applied ==> p.comments.items == EditComments(old(p.comments.items), AddAspectEdit(commentIndex))
                        && context.state == Reduce(old(context.state), UpdatePost(p)))
        && (!applied ==> p.comments.items == old(p.comments.items) && context.state == old(context.state))
    {
      applied := EditInPlace(AddAspectEdit(commentIndex));
    }

    method HandleRemoveAspect(commentIndex: int, aspectIndex: int) returns (applied: bool)
      modifies context, if context.state.post.Some? then {context.state.post.value.comments} else {}
      ensures old(context.state.post).None? ==> !applied && context.state == old(context.state)
      ensures old(context.state.post).Some? ==>
        var p := old(context.state.post).value;
        && applied == (0 <= commentIndex < |old(p.comments.items)|)
        && (applied ==> p.comments.items == EditComments(old(p.comments.items), RemoveAspectEdit(commentIndex, aspectIndex))
                        && context.state == Reduce(old(context.state), UpdatePost(p)))
        && (!applied ==> p.comments.items == old(p.comments.items) && context.state == old(context.state))
    {
      applied := EditInPlace(RemoveAspectEdit(commentIndex, aspectIndex));
    }

    method HandleCommentTextChange(commentIndex: int, text: string) returns (applied: bool)
      modifies context, if context.state.post.Some? then {context.state.post.value.comments} else {}
      ensures old(context.state.post).None? ==> !applied && context.state == old(context.state)
      ensures old(context.state.post).Some? ==>
        var p := old(context.state.post).value;
        && applied == (0 <= commentIndex < |old(p.comments.items)|)
        && (applied ==> p.comments.items == EditComments(old(p.comments.items), TextEdit(commentIndex, text))
                        && context.state == Reduce(old(context.state), UpdatePost(p)))
        && (!applied ==> p.comments.items == old(p.comments.items) && context.state == old(context.state))
    {
      applied := EditInPlace(TextEdit(commentIndex, text));
    }

    method HandleAspectChange(commentIndex: int, aspectIndex: int, field: DraftComments.AspectField) returns (applied: bool)
      modifies context, if context.state.post.Some? then {context.state.post.value.comments} else {}
      ensures old(context.state.post).None? ==> !applied && context.state == old(context.state)
      ensures old(context.state.post).Some? ==>
        var p := old(context.state.post).value;
        && applied == Applicable(old(p.comments.items), AspectEdit(commentIndex, aspectIndex, field))
        && (applied ==> p.comments.items == EditComments(old(p.comments.items), AspectEdit(commentIndex, aspectIndex, field))
                        && context.state == Reduce(old(context.state), UpdatePost(p)))
        && (!applied ==> p.comments.items == old(p.comments.items) && context.state == old(context.state))
    {
      applied := EditInPlace(AspectEdit(commentIndex, aspectIndex, field));
    }

    method HandleGeneralSentimentChange(commentIndex: int, sentiment: Sentiment) returns (applied: bool)
      modifies context, if context.state.post.Some? then {context.state.post.value.comments} else {}
      ensures old(context.state.post).None? ==> !applied && context.state == old(context.state)
      ensures old(context.state.post).Some? ==>
        var p := old(context.state.post).value;
        && applied == (0 <= commentIndex < |old(p.comments.items)|)
        && (applied ==> p.comments.items == EditComments(old(p.comments.items), SentimentEdit(commentIndex, sentiment))
                        && context.state == Reduce(old(context.state), UpdatePost(p)))
        && (!applied ==> p.comments.items == old(p.comments.items) && context.state == old(context.state))
    {
      applied := EditInPlace(SentimentEdit(commentIndex, sentiment));
    }

    /** Saves the post on screen through the context and goes back to the
        list only when the save resolved. */
    method HandleSave(updateResult: Outcome<Thrown>, reviewResult: Outcome<Thrown>)
      returns (calls: seq<ApiCall>, wentBack: bool)
      modifies context
      ensures old(context.state.post).None? ==> calls == [] && !wentBack && context.state == old(context.state)
      ensures old(context.state.post).Some? ==>
        var p := old(context.state.post).value;
        && calls == [UpdatePostCall(p.id, Value(p))]
                    + (if updateResult.Pass? && p.status == Unreviewed then [ReviewPostCall(p.id)] else [])
        && (wentBack <==> updateResult.Pass? && (p.status == Reviewed || reviewResult.Pass?))
        && !context.state.isSaving
        && (wentBack <==> context.state.error == None)
        && context.state.post == old(context.state.post)
        && context.state.history == old(context.state.history)
        && context.state.currentIndex == old(context.state.currentIndex)
    {
      calls, wentBack := [], false;
      if context.state.post.None? {
        return;
      }
      var result;
      result, calls := context.SaveChanges(context.state.post.value, updateResult, reviewResult);
      wentBack := result.Pass?;
    }

    /** The corrected edit: it builds a new comments array with the edit
        applied and dispatches a post holding it, so the snapshots already
        in the history keep what they showed. */
    method HandleEditCopying(e: ReviewEdit) returns (applied: bool)
      modifies context
      ensures old(context.state.post).None? ==> !applied && context.state == old(context.state)
      ensures old(context.state.post).Some? ==>
        var p := old(context.state.post).value;
        && applied == Applicable(p.comments.items, e)
        && (applied ==>
              && context.state.post.Some?
              && fresh(context.state.post.value.comments)
              && Value(context.state.post.value) == Value(p).(comments := EditComments(p.comments.items, e))
              && context.state == Reduce(old(context.state), UpdatePost(context.state.post.value)))
        && (!applied ==> context.state == old(context.state))
    {
      applied := false;
      if context.state.post.None? {
        return;
      }
      var p := context.state.post.value;
      if !Applicable(p.comments.items, e) {
        return;
      }
      var list := new CommentList(EditComments(p.comments.items, e));
      var q := PostDTO(p.id, p.caption, p.source, p.status, list);
      applied := true;
      context.UpdatePostOf(q);
    }
  }

  /** As written: open a post, change the text of one comment, press undo.
      The screen shows the edited text, not the post as it was opened. */
  method EditThenUndo(p0: PostValue, commentIndex: int, text: string) returns (shown: PostValue)
    requires 0 <= commentIndex < |p0.comments|
    ensures shown == p0.(comments := EditComments(p0.comments, TextEdit(commentIndex, text)))
    ensures text != p0.comments[commentIndex].text ==> shown != p0
  {
    var context := new VerificationProvider();
    var post := FromValue(p0);
    var screen := new PostReviewScreen(context, post);
    screen.Mount();
    var _ := screen.HandleCommentTextChange(commentIndex, text);
    context.UndoOnce();
    shown := Value(context.state.post.value);
    assert shown.comments[commentIndex].text == text;
  }

  /** Corrected: with copying edits, the same steps show the post as it was
      opened. */
  method EditThenUndoCopying(p0: PostValue, commentIndex: int, text: string) returns (shown: PostValue)
    requires 0 <= commentIndex < |p0.comments|
    ensures shown == p0
  {
    var context := new VerificationProvider();
    var post := FromValue(p0);
    var screen := new PostReviewScreen(context, post);
    screen.Mount();
    var _ := screen.HandleEditCopying(TextEdit(commentIndex, text));
    context.UndoOnce();
    shown := Value(context.state.post.value);
  }
}
