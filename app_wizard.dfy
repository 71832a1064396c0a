/** The first version of the annotation wizard, kept as the application's
    root component: the same three steps and comment handlers as the
    current wizard, without a source field. Its submit path is split in
    two: the data submission, which lets a failed request propagate, and
    the form handler, which turns that failure into an alert. */
module AppWizard {
  import opened Wrappers
  import opened Text
  import opened DraftComments
  import Steps
  import QAForm

  datatype FormData = FormData(postCaption: string, comments: seq<Comment>)

  const InitialFormData: FormData := FormData("", InitialComments)

  /** The create-post request body: caption and comments only. */
  datatype PostPayload = PostPayload(caption: string, comments: seq<CommentPayload>)

  const CaptionAlert: string := "Please enter a post caption"
  const CommentsAlert: string := "Please fill in all comment fields and aspects"
  const OneCommentAlert: string := "You must have at least one comment"
  const CreatedAlert: string := "Post created successfully!"

  /** Only the caption is checked on step 0. */
  predicate ValidatePostCaption(d: FormData) {
    HasContent(d.postCaption)
  }

  predicate ValidateComments(d: FormData) {
    CommentsFilled(d.comments)
  }

  predicate Blocked(step: int, d: FormData) {
    (step == 0 && !ValidatePostCaption(d)) || (step == 1 && !ValidateComments(d))
  }

  function BuildSubmission(d: FormData): PostPayload {
    PostPayload(d.postCaption, CommentsPayload(d.comments))
  }

  /** This wizard lets a caption made of spaces through exactly when the
      current wizard would, for any source the latter is given. */
  lemma SameCaptionRule(d: FormData, source: string)
    requires HasContent(source)
    ensures ValidatePostCaption(d) <==> QAForm.ValidatePostCaption(QAForm.FormData(d.postCaption, source, d.comments))
  {
  }

  /** Both wizards send the same comments for the same draft. */
  lemma SameCommentsPayload(d: FormData, source: string)
    ensures BuildSubmission(d).comments == QAForm.BuildSubmission(QAForm.FormData(d.postCaption, source, d.comments)).comments
    ensures BuildSubmission(d).caption == d.postCaption
  {
  }

  /** The alert for a failed create: the message is appended as it is. */
  function ErrorAlert(message: string): (r: string)
    ensures StartsWith(r, "Error creating post: ") && r[|"Error creating post: "|..] == message
  {
    "Error creating post: " + message
  }

  class App {
    var formData: FormData
    var currentStep: int

    ghost predicate Valid()
      reads this
    {
      Steps.InRange(currentStep)
    }

    constructor ()
      ensures Valid()
      ensures formData == InitialFormData && currentStep == 0
    {
      formData := InitialFormData;
      currentStep := 0;
    }

    method HandlePostCaptionChange(value: string)
      modifies this
      ensures formData == old(formData).(postCaption := value) && currentStep == old(currentStep)
    {
      formData := formData.(postCaption := value);
    }

    /** `commentId` and `aspectId` are the two UUIDs the handler draws. */
    method HandleAddComment(commentId: string, aspectId: string)
      modifies this
      ensures formData == old(formData).(comments := AddComment(old(formData.comments), commentId, aspectId))
      ensures currentStep == old(currentStep)
    {
      formData := formData.(comments := AddComment(formData.comments, commentId, aspectId));
    }

    method HandleRemoveComment(commentId: string) returns (alert: Option<string>)
      modifies this
      ensures |old(formData.comments)| <= 1 ==> alert == Some(OneCommentAlert) && formData == old(formData)
      ensures |old(formData.comments)| > 1 ==>
        alert == None && formData == old(formData).(comments := WithoutComment(old(formData.comments), commentId))
      ensures currentStep == old(currentStep)
    {
      if |formData.comments| <= 1 {
        alert := Some(OneCommentAlert);
        return;
      }
      alert := None;
      formData := formData.(comments := RemoveComment(formData.comments, commentId));
    }

    method HandleCommentChange(commentId: string, value: string)
      modifies this
      ensures formData == old(formData).(comments := SetCommentText(old(formData.comments), commentId, value))
      ensures currentStep == old(currentStep)
    {
      formData := formData.(comments := SetCommentText(formData.comments, commentId, value));
    }

    method HandleAddAspect(commentId: string, aspectId: string)
      modifies this
      ensures formData == old(formData).(comments := AddAspect(old(formData.comments), commentId, aspectId))
      ensures currentStep == old(currentStep)
    {
      formData := formData.(comments := AddAspect(formData.comments, commentId, aspectId));
    }

    method HandleRemoveAspect(commentId: string, aspectId: string)
      modifies this
      ensures formData == old(formData).(comments := RemoveAspect(old(formData.comments), commentId, aspectId))
      ensures currentStep == old(currentStep)
    {
      formData := formData.(comments := RemoveAspect(formData.comments, commentId, aspectId));
    }

    method HandleAspectChange(commentId: string, aspectId: string, field: AspectField)
      modifies this
      ensures formData == old(formData).(comments := SetAspectField(old(formData.comments), commentId, aspectId, field))
      ensures currentStep == old(currentStep)
    {
      formData := formData.(comments := SetAspectField(formData.comments, commentId, aspectId, field));
    }

    method HandleGeneralSentimentChange(commentId: string, value: Choices.Sentiment)
      modifies this
      ensures formData == old(formData).(comments := SetGeneralSentiment(old(formData.comments), commentId, value))
      ensures currentStep == old(currentStep)
    {
      formData := formData.(comments := SetGeneralSentiment(formData.comments, commentId, value));
    }

    method HandleNext() returns (alert: Option<string>)
      requires Valid()
      modifies this
      ensures Valid()
      ensures formData == old(formData)
      ensures alert.Some? <==> Blocked(old(currentStep), formData)
      ensures alert.Some? ==>
        currentStep == old(currentStep) && alert.value == (if old(currentStep) == 0 then CaptionAlert else CommentsAlert)
      ensures alert.None? ==> currentStep == Steps.Next(old(currentStep))
    {
      if currentStep == 0 && !ValidatePostCaption(formData) {
        return Some(CaptionAlert);
      }
      if currentStep == 1 && !ValidateComments(formData) {
        return Some(CommentsAlert);
      }
      alert := None;
      currentStep := Steps.Next(currentStep);
    }

    method HandleBack()
      requires Valid()
      modifies this
      ensures Valid()
      ensures formData == old(formData) && currentStep == Steps.Back(old(currentStep))
    {
      currentStep := Steps.Back(currentStep);
    }

    /** Sends the draft; `created` is what the request did. A failure is
        passed on untouched; a success raises the success alert and resets
        the form to a fresh draft on the first step. */
    method HandleSubmitData(created: Outcome<string>) returns (request: PostPayload, result: Outcome<string>, alert: Option<string>)
      requires Valid()
      modifies this
      ensures Valid()
      ensures request == BuildSubmission(old(formData)) && result == created
      ensures created.Pass? ==> alert == Some(CreatedAlert) && formData == InitialFormData && currentStep == 0
      ensures created.Fail? ==> alert == None && formData == old(formData) && currentStep == old(currentStep)
    {
      request := BuildSubmission(formData);
      result := created;
      alert := None;
      if created.Pass? {
        alert := Some(CreatedAlert);
        formData := InitialFormData;
        currentStep := 0;
      }
    }

    /** Submits only from the last step and alerts on a failed request. */
    method HandleSubmit(created: Outcome<string>) returns (request: Option<PostPayload>, alert: Option<string>)
      requires Valid()
      modifies this
      ensures Valid()
      ensures old(currentStep) != Steps.LastStep ==>
        request == None && alert == None && formData == old(formData) && currentStep == old(currentStep)
      ensures old(currentStep) == Steps.LastStep ==> request == Some(BuildSubmission(old(formData)))
      ensures old(currentStep) == Steps.LastStep && created.Pass? ==>
        alert == Some(CreatedAlert) && formData == InitialFormData && currentStep == 0
      ensures old(currentStep) == Steps.LastStep && created.Fail? ==>
        alert == Some(ErrorAlert(created.error)) && formData == old(formData) && currentStep == old(currentStep)
    {
      request, alert := None, None;
      if currentStep == Steps.LastStep {
        var sent, result, success := HandleSubmitData(created);
        request := Some(sent);
        alert := success;
        if result.Fail? {
          alert := Some(ErrorAlert(result.error));
        }
      }
    }
  }
}
