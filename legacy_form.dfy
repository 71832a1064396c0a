/** The older server-rendered form: one view whose step counter lives in
    the session, moved by the Next and Back buttons, and whose submit
    saves one post with one comment and its aspects. Form validity is an
    input: the form classes are not part of this model. */
module LegacyForm {
  import opened Wrappers
  import opened Choices
  import opened Records
  import opened Serializers
  import Steps

  /** One form of the aspect formset as posted. */
  datatype AspectForm = AspectForm(valid: bool, aspectName: string, aspectText: string, sentiment: Sentiment)

  /** The posted forms: the post form, the comment form and the aspect
      formset, each with whether it validates. */
  datatype Submission = Submission(
    postValid: bool,
    caption: string,
    commentValid: bool,
    text: string,
    generalSentiment: Sentiment,
    formsetValid: bool,
    aspectForms: seq<AspectForm>)

  datatype Redirect = ToSuccess | ToForm

  /** The aspect a valid form saves. */
  function FormData(f: AspectForm): AspectData {
    AspectData(None, Some(f.aspectName), Some(f.aspectText), Some(f.sentiment))
  }

  /** The aspects the submit saves: those of the valid forms, in order. */
  function SavedAspects(fs: seq<AspectForm>): (r: seq<AspectData>)
    ensures |r| <= |fs|
    ensures forall i :: 0 <= i < |fs| && fs[i].valid ==> FormData(fs[i]) in r
    ensures forall x :: x in r ==> exists i :: 0 <= i < |fs| && fs[i].valid && FormData(fs[i]) == x
    ensures (forall i :: 0 <= i < |fs| ==> fs[i].valid) ==> |r| == |fs|
    decreases |fs|
  {
    if |fs| == 0 then []
    else
      var pre := fs[..|fs| - 1];
      var last := fs[|fs| - 1];
      var rest := SavedAspects(pre);
      assert forall i :: 0 <= i < |pre| ==> pre[i] == fs[i];
      rest + if last.valid then [FormData(last)] else []
  }

  /** How many of the forms are valid. */
  function ValidCount(fs: seq<AspectForm>): (n: nat)
    ensures n <= |fs|
    decreases |fs|
  {
    if |fs| == 0 then 0
    else ValidCount(fs[..|fs| - 1]) + if fs[|fs| - 1].valid then 1 else 0
  }

  /** One saved aspect per valid form, in the order of the forms: the
      valid form at position `i` is saved as the aspect after those of the
      valid forms before it. */
  lemma {:induction false} SavedAspectsInOrder(fs: seq<AspectForm>)
    ensures |SavedAspects(fs)| == ValidCount(fs)
    ensures forall i :: 0 <= i < |fs| && fs[i].valid ==>
      ValidCount(fs[..i]) < |SavedAspects(fs)| && SavedAspects(fs)[ValidCount(fs[..i])] == FormData(fs[i])
    decreases |fs|
  {
    if |fs| > 0 {
      var n := |fs| - 1;
      var pre := fs[..n];
      SavedAspectsInOrder(pre);
      assert SavedAspects(fs) == SavedAspects(pre) + if fs[n].valid then [FormData(fs[n])] else [];
      forall i | 0 <= i < |fs| && fs[i].valid
        ensures ValidCount(fs[..i]) < |SavedAspects(fs)| && SavedAspects(fs)[ValidCount(fs[..i])] == FormData(fs[i])
      {
        if i < n {
          assert fs[..i] == pre[..i];
          assert pre[i] == fs[i];
        } else {
          assert fs[..i] == pre;
        }
      }
    }
  }

  /** `QAFormView`: the session's `current_step` entry, absent until the
      first button press. */
  class QAFormView {
    var currentStep: Option<int>

    ghost predicate Valid()
      reads this
    {
      currentStep.Some? ==> Steps.InRange(currentStep.value)
    }

    constructor ()
      ensures Valid() && currentStep == None
    {
      currentStep := None;
    }

    /** `get`: the step the form is rendered at, 0 when the session has none. */
    method Get() returns (step: int)
      requires Valid()
      ensures Steps.InRange(step)
      ensures currentStep.None? ==> step == 0
      ensures currentStep.Some? ==> step == currentStep.value
    {
      step := currentStep.GetOr(0);
    }

    /** `post` with the buttons `pressed`: Next before Back before Submit.
        A submit with all three forms valid saves the post, then the
        comment on it, then each valid aspect form on the comment, resets
        the step and redirects to the success page; anything else
        redirects back to the form with nothing saved. */
    method Post(db: Database, pressed: set<string>, sub: Submission)
      returns (r: Redirect, postKey: int, commentKey: int, aspectKeys: seq<int>)
      requires Valid() && db.Valid()
      modifies this, db
      ensures Valid() && db.Valid()
      ensures var step := old(currentStep).GetOr(0);
        && ("next" in pressed ==> currentStep == Some(Steps.Next(step)))
        && ("next" !in pressed && "back" in pressed ==> currentStep == Some(Steps.Back(step)))
      ensures SubmitSaves(pressed, sub) <==> r == ToSuccess
      ensures r == ToSuccess ==> currentStep == Some(0)
      ensures r == ToForm ==>
        && db.posts == old(db.posts) && db.comments == old(db.comments)
        && db.aspects == old(db.aspects) && db.sources == old(db.sources)
      ensures r == ToForm && "next" !in pressed && "back" !in pressed ==> currentStep == old(currentStep)
      ensures r == ToSuccess ==>
        && postKey !in old(db.posts)
        && db.posts == old(db.posts)[postKey := PostRow(sub.caption, None, None, DefaultStatus, None, None)]
        && commentKey !in old(db.comments)
        && db.comments == old(db.comments)[commentKey := CommentRow(postKey, sub.text, Some(sub.generalSentiment))]
        && db.sources == old(db.sources)
        && Appended(old(db.aspects), db.aspects, commentKey, aspectKeys, SavedAspects(sub.aspectForms))
    {
      aspectKeys := [];
      postKey, commentKey := 0, 0;
      var step := currentStep.GetOr(0);
      if "next" in pressed {
        currentStep := Some(Steps.Next(step));
      } else if "back" in pressed {
        currentStep := Some(Steps.Back(step));
      } else if "submit" in pressed && sub.postValid && sub.commentValid && sub.formsetValid {
        postKey := db.InsertPost(sub.caption);
        var ok;
        ok, commentKey := db.InsertComment(postKey, CommentData(None, Some(sub.text), Some(sub.generalSentiment), None));
        aspectKeys := SaveAspects(db, commentKey, sub.aspectForms);
        currentStep := Some(0);
        return ToSuccess, postKey, commentKey, aspectKeys;
      }
      r := ToForm;
    }
  }

  /** The buttons and forms under which a submit saves. */
  predicate SubmitSaves(pressed: set<string>, sub: Submission) {
    "next" !in pressed && "back" !in pressed && "submit" in pressed
    && sub.postValid && sub.commentValid && sub.formsetValid
  }

  /** The loop over the formset: each valid form saves one aspect of
      comment `c`. */
  method SaveAspects(db: Database, c: int, fs: seq<AspectForm>) returns (keys: seq<int>)
    requires db.Valid() && c in db.comments
    modifies db
    ensures db.Valid()
    ensures db.posts == old(db.posts) && db.comments == old(db.comments) && db.sources == old(db.sources)
    ensures Appended(old(db.aspects), db.aspects, c, keys, SavedAspects(fs))
  {
    keys := [];
    for i := 0 to |fs|
      invariant db.Valid() && c in db.comments
      invariant db.posts == old(db.posts) && db.comments == old(db.comments) && db.sources == old(db.sources)
      invariant Appended(old(db.aspects), db.aspects, c, keys, SavedAspects(fs[..i]))
    {
      assert fs[..i + 1][..i] == fs[..i];
      assert SavedAspects(fs[..i + 1]) == SavedAspects(fs[..i]) + if fs[i].valid then [FormData(fs[i])] else [];
      if fs[i].valid {
        ghost var mid := db.aspects;
        var ok, key := db.InsertAspect(c, FormData(fs[i]));
        AppendedStep(old(db.aspects), mid, c, keys, SavedAspects(fs[..i]), key, FormData(fs[i]));
        keys := keys + [key];
      }
    }
    assert fs[..|fs|] == fs;
  }
}
