/** The annotation wizard: a post caption and its source on the first step,
    the comments with their aspects on the second, a read-only review and
    the submit button on the third. The component's state is the draft and
    the current step; each handler replaces that state. */
module QAForm {
  import opened Wrappers
  import opened Choices
  import opened Text
  import opened DraftComments
  import Steps

  datatype FormData = FormData(postCaption: string, source: string, comments: seq<Comment>)

  const InitialFormData: FormData := FormData("", "", InitialComments)

  /** The create-post request body. */
  datatype PostPayload = PostPayload(caption: string, source: string, comments: seq<CommentPayload>)

  const CaptionAlert: string := "Please fill in both the source and post caption fields"
  const CommentsAlert: string := "Please fill in all comment fields and aspects"
  const OneCommentAlert: string := "You must have at least one comment"
  const CreatedAlert: string := "Post created successfully!"

  predicate ValidatePostCaption(d: FormData) {
    HasContent(d.postCaption) && HasContent(d.source)
  }

  predicate ValidateComments(d: FormData) {
    CommentsFilled(d.comments)
  }

  /** Step 0 passes exactly when both the caption and the source hold a
      character that is not whitespace. */
  lemma ValidatePostCaptionIff(d: FormData)
    ensures ValidatePostCaption(d) <==>
      (exists i :: 0 <= i < |d.postCaption| && !IsWhitespace(d.postCaption[i]))
      && (exists i :: 0 <= i < |d.source| && !IsWhitespace(d.source[i]))
  {
    HasContentIff(d.postCaption);
    HasContentIff(d.source);
  }

  /** A fresh form passes neither validation, and its comments are well formed. */
  lemma InitialFormBlocked()
    ensures !ValidatePostCaption(InitialFormData)
    ensures !ValidateComments(InitialFormData)
    ensures WellFormed(InitialFormData.comments)
  {
    assert TrimStart("") == "" && TrimEnd("") == "";
    assert InitialFormData.comments[0].text == "";
    assert !HasContent(InitialFormData.comments[0].text);
  }

  /** The step the Next button blocks on: step 0 without caption and source,
      step 1 with an empty comment or aspect. */
  predicate Blocked(step: int, d: FormData) {
    (step == 0 && !ValidatePostCaption(d)) || (step == 1 && !ValidateComments(d))
  }

  function BuildSubmission(d: FormData): PostPayload {
    PostPayload(d.postCaption, d.source, CommentsPayload(d.comments))
  }

  /** The request body keeps caption, source, the comments in order and
      their aspects in order, and does not depend on the client ids. */
  lemma SubmissionFaithful(d: FormData, e: FormData)
    requires d.postCaption == e.postCaption && d.source == e.source && SameButIds(d.comments, e.comments)
    ensures BuildSubmission(d) == BuildSubmission(e)
    ensures BuildSubmission(d).caption == d.postCaption && BuildSubmission(d).source == d.source
    ensures |BuildSubmission(d).comments| == |d.comments|
  {
    PayloadIgnoresIds(d.comments, e.comments);
  }

  /** One annotated comment with one aspect becomes the matching request. */
  lemma SubmissionExample()
    ensures BuildSubmission(FormData("Sale!", "@shop", [Comment("c1", "Great", [AspectEntry("a1", "price", Negative)], Positive)]))
         == PostPayload("Sale!", "@shop", [CommentPayload("Great", Positive, [AspectPayload("price", "", Negative)])])
  {
    var a := [AspectEntry("a1", "price", Negative)];
    assert a[1..] == [];
    assert AspectsPayload(a) == [AspectPayload("price", "", Negative)];
    var c := [Comment("c1", "Great", a, Positive)];
    assert c[1..] == [];
    assert CommentsPayload(c) == [CommentPayload("Great", Positive, AspectsPayload(a))];
  }

  /** The alert for a failed create: the error's message, or "Unknown error"
      when the message is empty. */
  function ErrorAlert(message: string): (r: string)
    ensures StartsWith(r, "Error creating post: ")
    ensures message != "" ==> r[|"Error creating post: "|..] == message
    ensures message == "" ==> r == "Error creating post: Unknown error"
  {
    "Error creating post: " + (if message == "" then "Unknown error" else message)
  }

  class QAFormComponent {
    var formData: FormData
    var currentStep: int

    ghost predicate Valid()
      reads this
    {
      Steps.InRange(currentStep)
    }

    constructor ()
      ensures Valid()
      ensures formData == InitialFormData && currentStep == 0
    {
      formData := InitialFormData;
      currentStep := 0;
    }

    method HandlePostCaptionChange(value: string)
      modifies this
      ensures formData == old(formData).(postCaption := value) && currentStep == old(currentStep)
    {
      formData := formData.(postCaption := value);
    }

    method HandleSourceChange(value: string)
      modifies this
      ensures formData == old(formData).(source := value) && currentStep == old(currentStep)
    {
      formData := formData.(source := value);
    }

    /** `commentId` and `aspectId` are the two UUIDs the handler draws. */
    method HandleAddComment(commentId: string, aspectId: string)
      modifies this
      ensures formData == old(formData).(comments := AddComment(old(formData.comments), commentId, aspectId))
      ensures currentStep == old(currentStep)
    {
      formData := formData.(comments := AddComment(formData.comments, commentId, aspectId));
    }

    /** Refuses with an alert when only one comment is left. */
    method HandleRemoveComment(commentId: string) returns (alert: Option<string>)
      modifies this
      ensures |old(formData.comments)| <= 1 ==> alert == Some(OneCommentAlert) && formData == old(formData)
      ensures |old(formData.comments)| > 1 ==>
        alert == None && formData == old(formData).(comments := WithoutComment(old(formData.comments), commentId))
      ensures currentStep == old(currentStep)
    {
      if |formData.comments| <= 1 {
        alert := Some(OneCommentAlert);
        return;
      }
      alert := None;
      formData := formData.(comments := RemoveComment(formData.comments, commentId));
    }

    method HandleCommentChange(commentId: string, value: string)
      modifies this
      ensures formData == old(formData).(comments := SetCommentText(old(formData.comments), commentId, value))
      ensures currentStep == old(currentStep)
    {
      formData := formData.(comments := SetCommentText(formData.comments, commentId, value));
    }

    method HandleAddAspect(commentId: string, aspectId: string)
      modifies this
      ensures formData == old(formData).(comments := AddAspect(old(formData.comments), commentId, aspectId))
      ensures currentStep == old(currentStep)
    {
      formData := formData.(comments := AddAspect(formData.comments, commentId, aspectId));
    }

    method HandleRemoveAspect(commentId: string, aspectId: string)
      modifies this
      ensures formData == old(formData).(comments := RemoveAspect(old(formData.comments), commentId, aspectId))
      ensures currentStep == old(currentStep)
    {
      formData := formData.(comments := RemoveAspect(formData.comments, commentId, aspectId));
    }

    method HandleAspectChange(commentId: string, aspectId: string, field: AspectField)
      modifies this
      ensures formData == old(formData).(comments := SetAspectField(old(formData.comments), commentId, aspectId, field))
      ensures currentStep == old(currentStep)
    {
      formData := formData.(comments := SetAspectField(formData.comments, commentId, aspectId, field));
    }

    method HandleGeneralSentimentChange(commentId: string, value: Sentiment)
      modifies this
      ensures formData == old(formData).(comments := SetGeneralSentiment(old(formData.comments), commentId, value))
      ensures currentStep == old(currentStep)
    {
      formData := formData.(comments := SetGeneralSentiment(formData.comments, commentId, value));
    }

    /** Moves one step on, unless the current step's fields are incomplete;
        then it raises that step's alert and stays. */
    method HandleNext() returns (alert: Option<string>)
      requires Valid()
      modifies this
      ensures Valid()
      ensures formData == old(formData)
      ensures alert.Some? <==> Blocked(old(currentStep), formData)
      ensures alert.Some? ==>
        currentStep == old(currentStep) && alert.value == (if old(currentStep) == 0 then CaptionAlert else CommentsAlert)
      ensures alert.None? ==> currentStep == Steps.Next(old(currentStep))
    {
      if currentStep == 0 && !ValidatePostCaption(formData) {
        return Some(CaptionAlert);
      }
      if currentStep == 1 && !ValidateComments(formData) {
        return Some(CommentsAlert);
      }
      alert := None;
      currentStep := Steps.Next(currentStep);
    }

    method HandleBack()
      requires Valid()
      modifies this
      ensures Valid()
      ensures formData == old(formData) && currentStep == Steps.Back(old(currentStep))
    {
      currentStep := Steps.Back(currentStep);
    }

    /** Submits only from the last step. `created` is what the create-post
        request did: it resolved, or it threw an API error with this message.
        On success the form is reset to a fresh draft on the first step; on
        failure nothing changes but the alert. */
    method HandleSubmit(created: Outcome<string>) returns (request: Option<PostPayload>, alert: Option<string>)
      requires Valid()
      modifies this
      ensures Valid()
      ensures old(currentStep) != Steps.LastStep ==>
        request == None && alert == None && formData == old(formData) && currentStep == old(currentStep)
      ensures old(currentStep) == Steps.LastStep ==> request == Some(BuildSubmission(old(formData)))
      ensures old(currentStep) == Steps.LastStep && created.Pass? ==>
        alert == Some(CreatedAlert) && formData == InitialFormData && currentStep == 0
      ensures old(currentStep) == Steps.LastStep && created.Fail? ==>
        alert == Some(ErrorAlert(created.error)) && formData == old(formData) && currentStep == old(currentStep)
    {
      request, alert := None, None;
      if currentStep == Steps.LastStep {
        request := Some(BuildSubmission(formData));
        match created
        case Pass =>
          alert := Some(CreatedAlert);
          formData := InitialFormData;
          currentStep := 0;
        case Fail(message) =>
          alert := Some(ErrorAlert(message));
      }
    }
  }
}
