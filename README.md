# ABSA annotation and review tool, modelled in Dafny

ABSA is a tool for collecting aspect-based sentiment annotations of social
media posts. A post has a caption and a source. Its comments each carry a
text, a general sentiment and a list of aspects, where an aspect is a name and
a sentiment. Annotators enter posts through a three-step wizard. Reviewers
page through the unreviewed and reviewed posts, edit a post with undo and redo,
and approve it. A Django REST backend stores the posts. It reconciles nested
updates by id, guards reviewed posts, and serves a CSV export, dashboard
statistics and a source search. An older server-rendered form keeps its step
in the session.

The project models each of these pieces in the form the code has.

| file | module | what it models |
|---|---|---|
| `common.dfy` | `Wrappers`, `Choices`, `Text`, `JsArrays` | Option and Outcome; the sentiment and status choices; JavaScript `trim`, ASCII upper-casing, `startsWith`; JavaScript `slice` |
| `api_types.dfy` | `ApiTypes` | the post, comment and aspect records the client holds; the comments array is a heap object shared by shallow copies |
| `verification_context.dfy` | `VerificationContext` | the undo/redo reducer (a pure function) and the provider class with `saveChanges` |
| `draft_comments.dfy` | `DraftComments` | the pure list updaters of the wizard draft and the submission projection |
| `wizard_steps.dfy` | `Steps` | the clamped step counter shared by both wizards and the old form |
| `qa_form.dfy` | `QAForm` | the current wizard (caption and source) as a class |
| `app_wizard.dfy` | `AppWizard` | the older wizard without a source, as a class |
| `post_review.dfy` | `PostReview` | the review screen: index-based edits that mutate the shared comments array, the buttons, save |
| `verification_home.dfy` | `VerificationHome` | pagination, text truncation, and moving a reviewed post between the lists |
| `records.dfy` | `Records` | table rows, validated request data, the per-field merges, the source name rule |
| `serializers.dfy` | `Serializers` | the database as a class with maps and id sequences; the nested update of a post |
| `post_views.dfy` | `PostViews` | user scoping, the reviewed-post guard on update, the review action, the two listings |
| `dicts.dfy` | `Dicts` | a Python dict as its entries in insertion order |
| `read_views.dfy` | `ReadViews` | CSV row shaping and the dashboard's seven-day date filling |
| `search.dfy` | `Search` | the source search: upper-cased prefix, most used first, at most five |
| `legacy_form.dfy` | `LegacyForm` | the server-rendered form: the session step and the save on submit |

Calls to the server, and the fresh ids the browser generates, are parameters.
A call's result is an `Outcome` that passes or fails. A generated id is an
argument, and the lemmas that need a fresh one say so in their `requires`. The
current time and the day number are parameters too. Form and serializer
validation are booleans. The database is one map from key to row per table,
plus a counter per table that hands out keys.

The code behaves as follows where a reader might expect otherwise:

- `saveChanges` has no guard against a second save while one is in flight. Only the disabled button stands in its way (`frontend/src/contexts/VerificationContext.tsx:135-156`).
- `saveChanges` sends the whole post, not one stripped of its server fields (`frontend/src/contexts/VerificationContext.tsx:140`).
- Undo is a no-op at any cursor up to 0, not only at 0.
- History snapshots are not immutable. The review screen mutates the comments array they share (Finding 1).
- Removing a comment drops every comment that carries the id. Only unique ids keep the list non-empty (`DraftComments.RemoveCommentNeedsUniqueIds`).

## Model

| member | source | states |
|---|---|---|
| Text.TrimStart | frontend/src/components/QAForm.tsx:36 | the result is a suffix of the input, everything dropped is whitespace, and it does not start with whitespace |
| Text.TrimEnd | frontend/src/components/QAForm.tsx:36 | the result is a prefix of the input, everything dropped is whitespace, and it does not end with whitespace |
| Text.HasContentIff | frontend/src/components/QAForm.tsx:35-36 | `s.trim().length > 0` holds exactly when s has a character that is not whitespace |
| Text.Upper | backend/qa_form/api/views.py:229 | same length; each ASCII lower-case letter is replaced by its upper-case form, every other character is kept |
| Text.UpperIdempotent | backend/qa_form/api/serializers.py:91 | upper-casing twice is upper-casing once |
| JsArrays.RelativeIndex | frontend/src/components/DataVerification/VerificationHome.tsx:67 | slice's reading of an index: counted from the end when negative, clipped to [0, n] |
| JsArrays.SliceNonNegative | frontend/src/components/DataVerification/VerificationHome.tsx:67 | for non-negative bounds slice is the clipped sub-sequence, and empty when start reaches the end |
| ApiTypes.FromValue | frontend/src/types/api.ts:1-29 | a post object built from parsed content has a fresh comments array holding exactly that content |
| VerificationContext.InitialState | frontend/src/contexts/VerificationContext.tsx:23-29 | the initial state has no post, an empty history and cursor -1; UNDO and REDO leave it unchanged |
| VerificationContext.SetPostLoads | frontend/src/contexts/VerificationContext.tsx:36-43 | SET_POST: history is [p], cursor 0, post p, no error, isSaving unchanged |
| VerificationContext.UpdatePostTruncates | frontend/src/contexts/VerificationContext.tsx:45-56 | UPDATE_POST keeps the snapshots up to the cursor, drops the redo tail, appends p and points at it; error cleared |
| VerificationContext.UndoMoves | frontend/src/contexts/VerificationContext.tsx:58-64 | UNDO at cursor 0 is an exact no-op; otherwise the cursor moves back by one and the post is that snapshot |
| VerificationContext.RedoMoves | frontend/src/contexts/VerificationContext.tsx:66-72 | REDO at the last snapshot is an exact no-op; otherwise the cursor moves forward by one and the post is that snapshot |
| VerificationContext.SavingLeavesHistory | frontend/src/contexts/VerificationContext.tsx:74-92 | START_SAVING, END_SAVING and SET_ERROR never change post, history or cursor; SET_ERROR stores the message and clears isSaving |
| VerificationContext.ReduceKeepsShape | frontend/src/contexts/VerificationContext.tsx:31-97 | every action keeps a loaded state loaded (cursor inside the history, post equal to that snapshot); a load action makes any state loaded |
| VerificationContext.ApplyKeepsShape | frontend/src/contexts/VerificationContext.tsx:31-97 | after any action sequence that loads a post at some point, `0 <= cursor < |history|` and post == history[cursor] |
| VerificationContext.UndoThenRedo | frontend/src/contexts/VerificationContext.tsx:58-72 | undo followed by redo restores the state exactly whenever undo moved |
| VerificationContext.RedoThenUndo | frontend/src/contexts/VerificationContext.tsx:58-72 | redo followed by undo restores the state exactly whenever redo moved |
| VerificationContext.UndoRevertsUpdate | frontend/src/contexts/VerificationContext.tsx:45-72 | undoing an edit shows the post current before it, with the same earlier snapshots; redo brings the edit back |
| VerificationContext.EditAfterUndoDropsRedo | frontend/src/contexts/VerificationContext.tsx:36-72 | load P0, edit P1, undo, edit P2 leaves history [P0, P2] at cursor 1, and redo there changes nothing |
| VerificationContext.SaveErrorMessage | frontend/src/contexts/VerificationContext.tsx:149-153 | the recorded message is the Error's message, or "Failed to save changes" for anything else thrown |
| VerificationContext.VerificationProvider.constructor | frontend/src/contexts/VerificationContext.tsx:117 | the provider starts in the initial state |
| VerificationContext.VerificationProvider.Dispatch | frontend/src/contexts/VerificationContext.tsx:117 | the new state is the reducer applied to the old state and the action |
| VerificationContext.VerificationProvider.SetPostOf | frontend/src/contexts/VerificationContext.tsx:119-121 | dispatches SET_POST |
| VerificationContext.VerificationProvider.UpdatePostOf | frontend/src/contexts/VerificationContext.tsx:123-125 | dispatches UPDATE_POST |
| VerificationContext.VerificationProvider.UndoOnce | frontend/src/contexts/VerificationContext.tsx:127-129 | dispatches UNDO |
| VerificationContext.VerificationProvider.RedoOnce | frontend/src/contexts/VerificationContext.tsx:131-133 | dispatches REDO |
| VerificationContext.VerificationProvider.SaveChanges | frontend/src/contexts/VerificationContext.tsx:135-156 | the update call comes first; the review call follows only for an unreviewed post and only after the update passed; the result is the first rejection; the error is set exactly on rejection; post, history and cursor are unchanged when nothing else is dispatched during the save (see "## Left out") |
| DraftComments.InitialWellFormed | frontend/src/components/QAForm.tsx:22-33 | the initial draft has one comment with one aspect and unique ids |
| DraftComments.WithoutCommentMembers | frontend/src/components/QAForm.tsx:78 | the filter keeps exactly the comments whose id differs |
| DraftComments.WithoutCommentAbsent | frontend/src/components/QAForm.tsx:78 | filtering by an absent id changes nothing |
| DraftComments.WithoutCommentAt | frontend/src/components/QAForm.tsx:78 | with unique ids, the filter removes exactly the one comment at the id's position |
| DraftComments.WithoutCommentUnique | frontend/src/components/QAForm.tsx:78 | the filter keeps ids unique |
| DraftComments.WithoutAspectMembers | frontend/src/components/QAForm.tsx:117 | the filter keeps exactly the aspects whose id differs |
| DraftComments.WithoutAspectAbsent | frontend/src/components/QAForm.tsx:117 | filtering by an absent id changes nothing |
| DraftComments.WithoutAspectAt | frontend/src/components/QAForm.tsx:117 | with unique ids, the filter removes exactly the one aspect at the id's position |
| DraftComments.WithoutAspectUnique | frontend/src/components/QAForm.tsx:117 | the filter keeps ids unique |
| DraftComments.WithoutCommentRemovesAtMostOne | frontend/src/components/QAForm.tsx:71-80 | with unique ids, at most one comment is removed |
| DraftComments.WithoutAspectRemovesAtMostOne | frontend/src/components/QAForm.tsx:108-123 | with unique ids, at most one aspect is removed |
| DraftComments.MapComment | frontend/src/components/QAForm.tsx:85-87 | same length; the comment with the id is transformed, every other comment is kept |
| DraftComments.MapAspect | frontend/src/components/QAForm.tsx:137-139 | same length; the aspect with the id is transformed, every other aspect is kept |
| DraftComments.AddComment | frontend/src/components/QAForm.tsx:54-69 | exactly one comment is appended, blank and neutral, with one blank neutral aspect; the others are unchanged |
| DraftComments.RemoveComment | frontend/src/components/QAForm.tsx:71-80 | at one comment or fewer nothing changes; otherwise the comments kept are exactly those with another id |
| DraftComments.SetCommentText | frontend/src/components/QAForm.tsx:82-89 | only the text of the comment with the id changes |
| DraftComments.AddAspect | frontend/src/components/QAForm.tsx:91-106 | exactly one blank neutral aspect is appended to the comment with the id; nothing else changes |
| DraftComments.RemoveAspect | frontend/src/components/QAForm.tsx:108-123 | only the comment with the id changes, and only when it has more than one aspect |
| DraftComments.SetAspectField | frontend/src/components/QAForm.tsx:125-144 | only the one field of the aspect with both ids changes |
| DraftComments.SetGeneralSentiment | frontend/src/components/QAForm.tsx:146-158 | only the sentiment of the comment with the id changes |
| DraftComments.SettersAbsentId | frontend/src/components/QAForm.tsx:82-158 | every setter, the aspect adder and the aspect remover are no-ops for an absent comment id |
| DraftComments.EditKeepsWellFormed | frontend/src/components/QAForm.tsx:54-158 | with fresh generated ids every edit keeps at least one comment, at least one aspect per comment, and unique sibling ids |
| DraftComments.EditsKeepWellFormed | frontend/src/components/QAForm.tsx:54-158 | the same for any sequence of edits |
| DraftComments.RemoveCommentKeeps | frontend/src/components/QAForm.tsx:71-80 | removing a comment keeps a well-formed draft well formed |
| DraftComments.AddAspectKeeps | frontend/src/components/QAForm.tsx:91-106 | adding an aspect with an unused id keeps a well-formed draft well formed |
| DraftComments.RemoveAspectKeeps | frontend/src/components/QAForm.tsx:108-123 | removing an aspect keeps a well-formed draft well formed |
| DraftComments.SetAspectFieldKeeps | frontend/src/components/QAForm.tsx:125-144 | changing an aspect field keeps a well-formed draft well formed |
| DraftComments.RemoveCommentNeedsUniqueIds | frontend/src/components/QAForm.tsx:71-80 | two comments with the same id are both removed, leaving none |
| DraftComments.AspectsPayload | frontend/src/components/QAForm.tsx:192-196 | one entry per aspect in order: the name as aspect_name, an empty aspect_text, the sentiment |
| DraftComments.CommentsPayload | frontend/src/components/QAForm.tsx:189-197 | one entry per comment in order: its text, its general sentiment, its aspects' payload |
| DraftComments.PayloadIgnoresIds | frontend/src/components/QAForm.tsx:186-198 | the payload does not depend on the client ids |
| Steps.Next | frontend/src/components/QAForm.tsx:173 | `min(step + 1, 2)`, which keeps a step in [0, 2] inside it |
| Steps.Back | frontend/src/components/QAForm.tsx:178 | `max(step - 1, 0)`, which keeps a step in [0, 2] inside it |
| Steps.NextBackInverse | frontend/src/components/QAForm.tsx:160-179 | Back undoes Next except at the last step, and Next undoes Back except at the first |
| QAForm.ValidatePostCaptionIff | frontend/src/components/QAForm.tsx:35-36 | step 0 passes exactly when both caption and source hold a character that is not whitespace |
| QAForm.InitialFormBlocked | frontend/src/components/QAForm.tsx:22-44 | the blank initial draft fails both step checks and is well formed |
| QAForm.SubmissionFaithful | frontend/src/components/QAForm.tsx:186-198 | the request keeps caption, source, and comment and aspect order and counts; it ignores client ids |
| QAForm.SubmissionExample | frontend/src/components/QAForm.tsx:186-198 | the "Sale!" / "@shop" example draft yields the documented request body |
| QAForm.ErrorAlert | frontend/src/components/QAForm.tsx:219 | "Error creating post: " followed by the message, or by "Unknown error" for an empty message |
| QAForm.QAFormComponent.constructor | frontend/src/components/QAForm.tsx:19-33 | the initial draft at step 0 |
| QAForm.QAFormComponent.HandlePostCaptionChange | frontend/src/components/QAForm.tsx:46-48 | replaces the caption only |
| QAForm.QAFormComponent.HandleSourceChange | frontend/src/components/QAForm.tsx:50-52 | replaces the source only |
| QAForm.QAFormComponent.HandleAddComment | frontend/src/components/QAForm.tsx:54-69 | the draft's comments become AddComment of the old ones; step unchanged |
| QAForm.QAFormComponent.HandleRemoveComment | frontend/src/components/QAForm.tsx:71-80 | alerts and changes nothing at one comment or fewer; otherwise filters the id out |
| QAForm.QAFormComponent.HandleCommentChange | frontend/src/components/QAForm.tsx:82-89 | the comments become SetCommentText of the old ones |
| QAForm.QAFormComponent.HandleAddAspect | frontend/src/components/QAForm.tsx:91-106 | the comments become AddAspect of the old ones |
| QAForm.QAFormComponent.HandleRemoveAspect | frontend/src/components/QAForm.tsx:108-123 | the comments become RemoveAspect of the old ones |
| QAForm.QAFormComponent.HandleAspectChange | frontend/src/components/QAForm.tsx:125-144 | the comments become SetAspectField of the old ones |
| QAForm.QAFormComponent.HandleGeneralSentimentChange | frontend/src/components/QAForm.tsx:146-158 | the comments become SetGeneralSentiment of the old ones |
| QAForm.QAFormComponent.HandleNext | frontend/src/components/QAForm.tsx:160-174 | alerts and stays exactly when the current step fails its check; otherwise `min(step + 1, 2)`; the step stays in [0, 2] |
| QAForm.QAFormComponent.HandleBack | frontend/src/components/QAForm.tsx:176-179 | `max(step - 1, 0)` |
| QAForm.QAFormComponent.HandleSubmit | frontend/src/components/QAForm.tsx:181-224 | sends the projection only at the last step; on success resets to the initial draft and step 0; on failure keeps the draft and alerts the error |
| AppWizard.SameCaptionRule | frontend/src/App.tsx:27 | the caption check equals the current wizard's for any non-blank source |
| AppWizard.SameCommentsPayload | frontend/src/App.tsx:170-181 | the comments payload is the current wizard's; the body holds the caption and no source |
| AppWizard.ErrorAlert | frontend/src/App.tsx:206 | "Error creating post: " followed by the message |
| AppWizard.App.constructor | frontend/src/App.tsx:14-25 | the initial draft without a source, at step 0 |
| AppWizard.App.HandlePostCaptionChange | frontend/src/App.tsx:37-39 | replaces the caption only |
| AppWizard.App.HandleAddComment | frontend/src/App.tsx:41-56 | the comments become AddComment of the old ones |
| AppWizard.App.HandleRemoveComment | frontend/src/App.tsx:58-67 | alerts and changes nothing at one comment or fewer; otherwise filters the id out |
| AppWizard.App.HandleCommentChange | frontend/src/App.tsx:69-76 | the comments become SetCommentText of the old ones |
| AppWizard.App.HandleAddAspect | frontend/src/App.tsx:78-93 | the comments become AddAspect of the old ones |
| AppWizard.App.HandleRemoveAspect | frontend/src/App.tsx:95-110 | the comments become RemoveAspect of the old ones |
| AppWizard.App.HandleAspectChange | frontend/src/App.tsx:112-131 | the comments become SetAspectField of the old ones |
| AppWizard.App.HandleGeneralSentimentChange | frontend/src/App.tsx:133-145 | the comments become SetGeneralSentiment of the old ones |
| AppWizard.App.HandleNext | frontend/src/App.tsx:147-162 | alerts and stays exactly when the current step fails its check; otherwise `min(step + 1, 2)` |
| AppWizard.App.HandleBack | frontend/src/App.tsx:164-167 | `max(step - 1, 0)` |
| AppWizard.App.HandleSubmitData | frontend/src/App.tsx:169-197 | sends caption and comments; on success resets to the initial draft and step 0; a failure passes to the caller with the draft unchanged |
| AppWizard.App.HandleSubmit | frontend/src/App.tsx:199-209 | runs the submit only at the last step; alerts the error on failure |
| PostReview.SpliceOne | frontend/src/components/DataVerification/PostReview.tsx:56 | `splice(i, 1)` removes the element at the relative index i when there is one, and leaves the array otherwise |
| PostReview.EditComment | frontend/src/components/DataVerification/PostReview.tsx:41-89 | each edit changes only its own field of the addressed comment: a text edit sets the text, a sentiment edit the general sentiment, an aspect edit sets the named field of the addressed aspect; add appends the blank neutral aspect; remove splices |
| PostReview.SetDtoField | frontend/src/components/DataVerification/PostReview.tsx:68-79 | the name select sets the aspect name, the sentiment select the sentiment; id, text and the other field are kept |
| PostReview.EditComments | frontend/src/components/DataVerification/PostReview.tsx:41-89 | only the addressed comment changes |
| PostReview.RemoveLastAspect | frontend/src/components/DataVerification/PostReview.tsx:52-58 | removing the only aspect of a comment leaves it with none: there is no last-aspect guard |
| PostReview.RemoveUndoesAdd | frontend/src/components/DataVerification/PostReview.tsx:38-58 | adding an aspect and then removing the last one restores the comments |
| PostReview.ButtonsMatchReducer | frontend/src/components/DataVerification/PostReview.tsx:106-119 | on a loaded post, undo and redo are enabled exactly when pressing them would move the cursor |
| PostReview.PostReviewScreen.constructor | frontend/src/components/DataVerification/PostReview.tsx:13-21 | the screen holds the context and the post it was opened with |
| PostReview.PostReviewScreen.Mount | frontend/src/components/DataVerification/PostReview.tsx:23-25 | dispatches SET_POST with the initial post |
| PostReview.PostReviewScreen.EditInPlace | frontend/src/components/DataVerification/PostReview.tsx:38-90 | without a post nothing happens; otherwise the shared comments array is edited in place and UPDATE_POST is dispatched with a shallow copy of the post, whose comments array is that same shared array; as a value the copy cannot be told from the original |
| PostReview.PostReviewScreen.HandleAddAspect | frontend/src/components/DataVerification/PostReview.tsx:38-50 | appends the blank neutral aspect to comment i in place, then records the post |
| PostReview.PostReviewScreen.HandleRemoveAspect | frontend/src/components/DataVerification/PostReview.tsx:52-58 | splices aspect j out of comment i in place, then records the post |
| PostReview.PostReviewScreen.HandleCommentTextChange | frontend/src/components/DataVerification/PostReview.tsx:60-66 | sets the text of comment i in place, then records the post |
| PostReview.PostReviewScreen.HandleAspectChange | frontend/src/components/DataVerification/PostReview.tsx:68-79 | sets one field of aspect j of comment i in place, then records the post |
| PostReview.PostReviewScreen.HandleGeneralSentimentChange | frontend/src/components/DataVerification/PostReview.tsx:81-90 | sets the sentiment of comment i in place, then records the post |
| PostReview.PostReviewScreen.HandleSave | frontend/src/components/DataVerification/PostReview.tsx:27-36 | without a post nothing happens; otherwise it saves and goes back exactly when the save resolved; the post, history and cursor unchanged when nothing else is dispatched during the save (see "## Left out") |
| PostReview.SaveButtonTracksSaving | frontend/src/components/DataVerification/PostReview.tsx:120-123 | the save button is disabled exactly while a save is in flight: START_SAVING disables it, END_SAVING and SET_ERROR enable it, and no other action changes it |
| PostReview.EditThenUndo | frontend/src/components/DataVerification/PostReview.tsx:60-66 | as written: after an edit and an undo the screen shows the edited content, not the original |
| PostReview.PostReviewScreen.HandleEditCopying | frontend/src/components/DataVerification/PostReview.tsx:38-90 | corrected: the edit builds a fresh comments array, so the snapshots keep their content |
| PostReview.EditThenUndoCopying | frontend/src/components/DataVerification/PostReview.tsx:60-66 | corrected: after an edit and an undo the screen shows exactly the original post |
| VerificationHome.TotalPages | frontend/src/components/DataVerification/VerificationHome.tsx:68 | `ceil(n / 10)`: the least page count whose pages hold n posts; 0 exactly for no posts |
| VerificationHome.PageContents | frontend/src/components/DataVerification/VerificationHome.tsx:64-67 | page p lists the posts from (p-1)*10 up to (p-1)*10+10, cut at the length, between one and ten of them |
| VerificationHome.PagesCover | frontend/src/components/DataVerification/VerificationHome.tsx:64-68 | the first k pages together are the first 10k posts, in order |
| VerificationHome.PagesCoverAll | frontend/src/components/DataVerification/VerificationHome.tsx:64-68 | all pages together list every post exactly once, in order |
| VerificationHome.ShowingMatchesPage | frontend/src/components/DataVerification/VerificationHome.tsx:220-222 | on an existing page the "Showing" range counts exactly the posts listed |
| VerificationHome.Truncate | frontend/src/components/DataVerification/VerificationHome.tsx:70-74 | "" for "", the text itself within the limit, else the first max characters plus "..." of length max+3 |
| VerificationHome.WithoutId | frontend/src/components/DataVerification/VerificationHome.tsx:43-45 | the filter keeps only posts with another id |
| VerificationHome.WithoutIdCount | frontend/src/components/DataVerification/VerificationHome.tsx:43-45 | the filter drops exactly the posts with the id and keeps every other post |
| VerificationHome.NextOnEmptyList | frontend/src/components/DataVerification/VerificationHome.tsx:209-211 | as written: with no posts Next is enabled on page 1 and moves to page 0, shown as "-9 to 0" |
| VerificationHome.PageButtonsStayOnPages | frontend/src/components/DataVerification/VerificationHome.tsx:203-211 | corrected: Previous and the clamped Next stay on pages numbered 1 or more, move by one, and never pass the last page |
| VerificationHome.Home.constructor | frontend/src/components/DataVerification/VerificationHome.tsx:10-15 | empty lists, page 1, nothing selected |
| VerificationHome.Home.FinishFetch | frontend/src/components/DataVerification/VerificationHome.tsx:17-34 | on success the two lists are the fetched ones; on failure they stay |
| VerificationHome.StatusCellOf | frontend/src/components/DataVerification/VerificationHome.tsx:179-189 | a row shows the Verify button exactly for an unreviewed post, and the "Verified" label exactly for a reviewed one |
| VerificationHome.Home.HandleVerifyClick | frontend/src/components/DataVerification/VerificationHome.tsx:36-38 | reached only through the Verify button (`VerifyOffered`), it selects the post, which is therefore unreviewed; lists and page unchanged |
| VerificationHome.Home.HandleSaveReview | frontend/src/components/DataVerification/VerificationHome.tsx:40-51 | after a review that passed, every post with the id leaves the unreviewed list, the post is appended to the reviewed list and the selection clears; on failure nothing changes |
| VerificationHome.Home.Previous | frontend/src/components/DataVerification/VerificationHome.tsx:203 | `max(1, p - 1)` |
| VerificationHome.Home.Next | frontend/src/components/DataVerification/VerificationHome.tsx:210 | as written: `min(totalPages, p + 1)` |
| VerificationHome.Home.NextClamped | frontend/src/components/DataVerification/VerificationHome.tsx:210 | corrected: Next never leaves the pages numbered 1 or more |
| VerificationHome.Home.GoToPage | frontend/src/components/DataVerification/VerificationHome.tsx:232-235 | a page button moves to its page |
| Records.MergeAspect | backend/qa_form/api/serializers.py:14-19 | each of name, text and sentiment is replaced when its key is present and kept otherwise |
| Records.MergeAspectLaws | backend/qa_form/api/serializers.py:14-19 | the merge is idempotent; data with no keys changes nothing; data with every key overrides earlier merges |
| Records.MergeComment | backend/qa_form/api/serializers.py:34-35 | text and general sentiment are replaced when present and kept otherwise |
| Records.MergeCommentLaws | backend/qa_form/api/serializers.py:34-35 | the comment merge is idempotent, and data with no keys changes nothing |
| Records.MergeAllSnoc | backend/qa_form/api/serializers.py:43-53 | one more incoming entry merges the existing child once more exactly when it names the child |
| Records.MergeAllUntouched | backend/qa_form/api/serializers.py:43-53 | a child that no entry names is left as it is |
| Records.MergeAllCommentsSnoc | backend/qa_form/api/serializers.py:108-114 | the same for comments |
| Records.SourceName | backend/qa_form/api/serializers.py:91 | the stored name is the given name upper-cased character by character, of its length, and upper-casing it again changes nothing |
| Records.SourcesAfter | backend/qa_form/api/serializers.py:90-96 | without a source nothing changes; otherwise the upper-cased source is present, its usage goes up by one when it existed or starts at the initial count, and other sources are unchanged |
| Records.SourceNameIgnoresCase | backend/qa_form/api/serializers.py:91-92 | two names of the same length whose characters agree up to ASCII case give the same stored name, so they count as one source |
| Records.PostAfter | backend/qa_form/api/serializers.py:89-101 | the source is set when given, the caption when given; user, status and review fields are kept |
| Records.Username | backend/qa_form/api/serializers.py:81-82 | None exactly when the post has no user, otherwise that user's name |
| Records.AspectKeysOf | backend/qa_form/api/serializers.py:39 | exactly the keys of the aspects of the comment |
| Records.CommentKeysOf | backend/qa_form/api/serializers.py:104 | exactly the keys of the comments of the post |
| Serializers.MergeAllStep | backend/qa_form/api/serializers.py:43-53 | one pass of the aspect loop merges only the child the entry names |
| Serializers.AspectsStep | backend/qa_form/api/serializers.py:43-53 | one pass of the aspect loop keeps the loop's frame and placement summaries |
| Serializers.MergeAllCommentsStep | backend/qa_form/api/serializers.py:108-123 | one pass of the comment loop merges only the comment the entry names |
| Serializers.CommentsUpdateStep | backend/qa_form/api/serializers.py:110-114 | a pass that updates an existing comment keeps the comment loop's summaries |
| Serializers.CommentsCreateStep | backend/qa_form/api/serializers.py:115-123 | a pass that creates a comment keeps the comment loop's summaries |
| Serializers.ReconcileResult | backend/qa_form/api/serializers.py:104-126 | after the loop and the delete the post's comments are exactly the kept and created ones; listed existing comments are merged, others deleted; other posts' comments and aspects are untouched |
| Serializers.AspectsFramedFrame | backend/qa_form/api/serializers.py:43-53 | whatever the aspect loop has done, other comments' aspects are untouched and every other row belongs to the comment |
| Serializers.CommentAspectsResult | backend/qa_form/api/serializers.py:39-56 | after the loop and the delete, the comment's aspects are exactly the kept and created ones; an existing aspect survives exactly when an entry lists it, merged with every entry naming it |
| Serializers.AppendedStep | backend/qa_form/api/serializers.py:52 | inserting one more aspect at a fresh key extends the record of the aspects created so far |
| Serializers.Database.constructor | backend/qa_form/models.py:4-41 | empty tables |
| Serializers.Database.InsertAspect | backend/qa_form/api/serializers.py:52 | succeeds exactly when the id is absent or free; adds the new row at that key or at the next sequence key |
| Serializers.Database.InsertComment | backend/qa_form/api/serializers.py:118-119 | succeeds exactly when the id is absent or free; adds the new row |
| Serializers.Database.InsertPost | backend/qa_form/views_old.py:43 | adds a post at a fresh key with no user, no source and the default status |
| Serializers.Database.UpdateAspect | backend/qa_form/api/serializers.py:14-19 | replaces the row by its merge; nothing else changes |
| Serializers.Database.MergeAspects | backend/qa_form/api/serializers.py:43-53 | every existing aspect ends as the merge of every entry naming it; every other entry creates a fresh aspect of the comment; other comments' aspects untouched; a failure stops at the first entry not placed, which carries an explicit id that names no aspect of the comment and is already a key of the aspect table; when every entry has no id or names one of the comment's aspects, it succeeds |
| Serializers.Database.MergeOne | backend/qa_form/api/serializers.py:44-53 | an entry naming an existing aspect updates it; any other entry creates one |
| Serializers.Database.UpdateComment | backend/qa_form/api/serializers.py:29-58 | the comment is merged; on success its aspects are exactly the matched and the created ones; an existing aspect survives exactly when an entry lists it; other comments' aspects untouched |
| Serializers.Database.CreateComment | backend/qa_form/api/serializers.py:117-122 | a new comment of the post with one new aspect per incoming aspect, in order, at distinct fresh keys, and no other new row; existing rows untouched; succeeds when no id is given |
| Serializers.Database.DeleteUnlisted | backend/qa_form/api/serializers.py:126 | the post's comments not kept go, and their aspects with them by the cascade; every other row stays |
| Serializers.Database.UpdatePost | backend/qa_form/api/serializers.py:84-128 | on failure every table is as before; a request without ids succeeds; on success the post and sources are updated and the comments are reconciled: the post's comments are exactly the kept and created ones, listed existing comments are merged, unlisted ones deleted, other posts' rows untouched |
| Serializers.Database.SavePostFields | backend/qa_form/api/serializers.py:89-101 | the source is counted and set and the caption replaced; nothing else changes |
| Serializers.Database.ReplaceComments | backend/qa_form/api/serializers.py:104-126 | the comment loop then the delete: a request without ids succeeds, and on success the comments are reconciled as above |
| Serializers.Database.ReconcileComments | backend/qa_form/api/serializers.py:108-123 | the comment loop: listed comments updated, others created; it can fail only when some comment or aspect carries an id, so a request without ids succeeds |
| PostViews.VisibleKeys | backend/qa_form/api/views.py:22-23 | exactly the requesting user's posts |
| PostViews.ListingKeys | backend/qa_form/api/views.py:77-94 | exactly the user's posts with the status |
| PostViews.ListingsPartition | backend/qa_form/api/views.py:77-94 | the unreviewed and reviewed listings split the user's posts into two disjoint parts |
| PostViews.MarkReviewed | backend/qa_form/api/views.py:69-72 | status reviewed, reviewer the user, review time now; caption, source and owner kept |
| PostViews.Update | backend/qa_form/api/views.py:25-45 | 404 for another user's post; 400 "Cannot modify a reviewed post" for non-staff on a reviewed post; a rejected body gives a validation error; nothing changes unless OK; on OK the post and sources are updated and the comments reconciled as in `Serializers.Database.UpdatePost`, so a body without comments deletes every comment of the post |
| PostViews.Review | backend/qa_form/api/views.py:47-74 | 404, then 400 "Post is already reviewed"; an optional partial update, then marked reviewed; nothing changes unless OK; with a body, on OK the comments are reconciled as in `Serializers.Database.UpdatePost`; without one the comments, aspects and sources are untouched |
| PostViews.ReviewTwice | backend/qa_form/api/views.py:52-72 | after a successful review a second one is always refused, and the post keeps the first reviewer and time |
| Dicts.Put | backend/qa_form/api/views.py:120-123 | assigning a key keeps the length or adds one entry |
| Dicts.PutLookup | backend/qa_form/api/views.py:120-123 | after `d[k] = v`, k reads v and every other key reads as before |
| Dicts.PutPlace | backend/qa_form/api/views.py:174-179 | a present key is replaced where it stands, a new key is appended, and keys stay distinct |
| Dicts.LookupAt | backend/qa_form/api/views.py:178-179 | with distinct keys the entry at i is found by its key |
| Dicts.LookupSome | backend/qa_form/api/views.py:178-179 | a key present somewhere is found |
| Dicts.LookupNone | backend/qa_form/api/views.py:178-179 | a key is not found exactly when no entry has it |
| Dicts.LookupSnoc | backend/qa_form/api/views.py:178-179 | looking up in a dict with one more entry at the end |
| ReadViews.LastSentiment | backend/qa_form/api/views.py:120-123 | no value exactly when no aspect has the name; otherwise the sentiment of an aspect with that name |
| ReadViews.AspectsDictLast | backend/qa_form/api/views.py:120-123 | the aspects column maps each name to the sentiment of its last aspect, so a later duplicate overwrites an earlier one; each name occurs once |
| ReadViews.CommentRows | backend/qa_form/api/views.py:119-134 | one row per comment of the post, in order |
| ReadViews.RowsCount | backend/qa_form/api/views.py:118-134 | exactly one data row per comment across the user's posts |
| ReadViews.RowsAt | backend/qa_form/api/views.py:118-134 | comment j of post i is on data row `CommentCount(posts[..i]) + j`, with that post's and that comment's columns |
| ReadViews.ExportCsv | backend/qa_form/api/views.py:96-136 | the 8-column header, then the data rows in post and comment order |
| ReadViews.Window | backend/qa_form/api/views.py:174-177 | the seven days from the start, each with count 0 |
| ReadViews.FilledDates | backend/qa_form/api/views.py:174-179 | the filled list keeps the seven window days in place with the query's count or 0, appends any later day, and is in increasing day order |
| ReadViews.FilledInWindow | backend/qa_form/api/views.py:178-179 | a query entry inside the window replaces that day's zero and keeps the shape |
| ReadViews.FilledAfterWindow | backend/qa_form/api/views.py:178-179 | a query entry after the window is appended and keeps the shape |
| ReadViews.FillDates | backend/qa_form/api/views.py:174-179 | the loop overwrites the zero window with each query entry in turn |
| ReadViews.DashboardStats | backend/qa_form/api/views.py:138-193 | the post count, the comment count, the number of distinct sources and the filled seven-day list |
| ReadViews.LastSevenDays | backend/qa_form/api/views.py:160-191 | when no post is dated after today: exactly 7 entries, the days end-6 to end in order, each with its post count, 0 for a day without posts |
| ReadViews.NoLateDays | backend/qa_form/api/views.py:164-171 | with no post after today the query returns no day after today |
| Search.Matching | backend/qa_form/api/views.py:230 | every source kept starts with the prefix, every matching source is kept, and nothing else is added |
| Search.Insert | backend/qa_form/api/views.py:230 | inserting into a most-used-first list keeps it ordered and adds exactly that source |
| Search.SortByUsage | backend/qa_form/api/views.py:230 | most used first, and a permutation of the input |
| Search.FindTop | backend/qa_form/api/views.py:227-232 | at most five sources, five unless fewer match; each starts with the upper-cased query; most used first; drawn from the matches; no match left out is used more than any source returned |
| Search.PrefixTop | backend/qa_form/api/views.py:230 | the first five of a most-used-first list are its most used rows |
| Search.FindIgnoresCase | backend/qa_form/api/views.py:229 | two queries of the same length whose characters agree up to ASCII case give the same answer |
| LegacyForm.SavedAspects | backend/qa_form/views_old.py:48-52 | only aspects of valid forms, every valid form among them, and all of the forms when all are valid |
| LegacyForm.SavedAspectsInOrder | backend/qa_form/views_old.py:48-52 | one aspect per valid form: as many as there are valid forms, and the valid form at position i is the aspect after those of the valid forms before it |
| LegacyForm.QAFormView.constructor | backend/qa_form/views_old.py:7-13 | a session without a step |
| LegacyForm.QAFormView.Get | backend/qa_form/views_old.py:15-27 | the step is the session's, or 0 when the session has none |
| LegacyForm.QAFormView.Post | backend/qa_form/views_old.py:29-57 | Next gives `min(step + 1, 2)` and Back `max(step - 1, 0)`; a submit with all forms valid saves the post, the comment on it and each valid aspect on the comment, resets the step to 0 and redirects to success; anything else redirects to the form with nothing saved |
| LegacyForm.SaveAspects | backend/qa_form/views_old.py:48-52 | one new aspect of the comment per valid form, in order, at distinct fresh keys; nothing else changes |

## Left out

- Rendering, styling and the JSX of every component are left out, as are the loading flags, which only choose what is rendered.
- Network, authentication and the API client are left out. Every API call is a pass-or-fail parameter. `frontend/src/services/api.ts` defines no `reviewPost`, `getUnreviewedPosts` or `getReviewedPosts`, so those calls are parameters as well.
- The prop names that `VerificationHome` passes to `PostReview` do not match the props `PostReview` takes. Each component is modelled on its own terms.
- The source input's debounce timer and the async source fetches are left out.
- Random UUID generation is left out. Ids are arguments; the lemmas that need fresh ids require them.
- VerificationHome.Truncate and JsArrays.Slice: JavaScript's `length` and `slice` on strings count UTF-16 code units, while a Dafny string is a sequence of Unicode scalar values. For text outside the Basic Multilingual Plane, such as emoji, the model keeps whole characters where the browser can cut a surrogate pair and count it as two.
- Upper-casing is ASCII only. Python's `str.upper` and the database's case rules beyond ASCII are not modelled.
- Times and dates are whole day numbers. Time zones, datetime formatting, `json.dumps` and CSV quoting are left out.
- Serializer and form validation are boolean inputs. The field-level rules of the forms, and the form classes of the old view, are not part of this model.
- LegacyForm.QAFormView.Post: the formset's validity is an input independent of each form's; Django derives it from them.
- The models file shown has no Source model and no status, user or review fields on Post. Their shapes come from the serializers and the migration. A new source's starting usage count is a parameter.
- Transactions are modelled as snapshot and restore of all four tables. Rollback also restores the key counters. The model's key counter for a table is always above its largest key, so an explicit id moves it on. A real database sequence is not rolled back, and an explicit id does not advance it; there, a later request without ids can collide with an explicitly chosen key and fail, which the model's `NoIds(...) ==> ok` clauses do not capture.
- Database rows come in key order for aspects and in stored order elsewhere: the read views take sequences as the query returns them.
- ReadViews.DashboardStats: `topSources` (a count per source, most first, five) is not modelled.
- ReadViews.LastSevenDays: exactly seven entries is proved only when no post is dated after today. The daily query has no upper bound, so a later-dated post adds an entry after the window (`ReadViews.FilledDates` states the general case).
- Serializers.Database.UpdatePost: success is proved for requests that carry no ids. With ids, the contract states only that failure leaves every table unchanged. The aspect-level facts of each updated comment are stated per call by `Serializers.Database.UpdateComment`, not restated for the whole post.
- Serializers.Database.MergeAspects: the loop stops at the first integrity error, because the transaction is rolled back anyway. The entries placed before the error are described, but UpdateComment's failure state is only partly described: on failure it returns before its delete step, and its contract states the merged comment, the untouched aspects of other comments and an entry that fails, not which aspects of the comment were already written.
- VerificationContext.VerificationProvider.SaveChanges and PostReview.PostReviewScreen.HandleSave: the save is modelled as one atomic step, with no dispatch interleaved at its two awaits (`frontend/src/contexts/VerificationContext.tsx:140` and `:144`). In the browser, undo, redo and the edit handlers stay enabled while a save is in flight; only the save button checks `isSaving`. END_SAVING or SET_ERROR then applies to whatever state those dispatches left. So "post, history and cursor unchanged" holds only when nothing else is dispatched during the save.
- The `CommentViewSet` and `AspectViewSet` query filters, the template tag, settings and admin are left out.

## Findings

| source | as written | input that shows it | evidently intended | confidence | as-written member | corrected member |
|---|---|---|---|---|---|---|
| frontend/src/components/DataVerification/PostReview.tsx:60-66 | each handler copies the post shallowly and mutates the comments array shared with every history snapshot | load a post whose comment 0 has text "a", change that text to "b", press undo | undo shows text "a" again | not executed | PostReview.EditThenUndo | PostReview.EditThenUndoCopying |
| frontend/src/components/DataVerification/VerificationHome.tsx:210-211 | Next goes to `min(totalPages, p + 1)` and is disabled only when `p == totalPages` | no posts: totalPages is 0, on page 1 Next is enabled and moves to page 0, showing "-9 to 0" | Next never leaves page 1 | not executed | VerificationHome.NextOnEmptyList | VerificationHome.PageButtonsStayOnPages |
