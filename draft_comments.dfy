/** The comment list of the annotation wizard's draft, and the updaters its
    handlers apply to it. Both wizards (the current one and the older one
    without a source field) use these updaters unchanged.

    A comment or aspect is addressed by its client id. New ids come from a
    UUID generator, which the model replaces with parameters; the lemmas that
    need fresh ids say so in their requires. */
module DraftComments {
  import opened Choices
  import Text

  datatype AspectEntry = AspectEntry(id: string, aspect: string, sentiment: Sentiment)

  datatype Comment = Comment(id: string, text: string, aspects: seq<AspectEntry>, generalSentiment: Sentiment)

  /** The field an aspect edit sets: the aspect name, or the sentiment. */
  datatype AspectField = AspectName(name: string) | AspectSentiment(sentiment: Sentiment)

  function BlankAspect(id: string): AspectEntry {
    AspectEntry(id, "", Neutral)
  }

  function BlankComment(id: string, aspectId: string): Comment {
    Comment(id, "", [BlankAspect(aspectId)], Neutral)
  }

  /** The one comment of a fresh draft, with one aspect; both ids are "1". */
  const InitialComments: seq<Comment> := [BlankComment("1", "1")]

  // ----- identity and the draft invariant -----

  predicate CommentIdsUnique(cs: seq<Comment>) {
    forall i, j :: 0 <= i < j < |cs| ==> cs[i].id != cs[j].id
  }

  predicate AspectIdsUnique(as_: seq<AspectEntry>) {
    forall i, j :: 0 <= i < j < |as_| ==> as_[i].id != as_[j].id
  }

  predicate HasCommentId(cs: seq<Comment>, id: string) {
    exists c :: c in cs && c.id == id
  }

  predicate HasAspectId(as_: seq<AspectEntry>, id: string) {
    exists a :: a in as_ && a.id == id
  }

  /** No comment of the draft has an aspect with this id. */
  predicate AspectIdUnused(cs: seq<Comment>, id: string) {
    forall i :: 0 <= i < |cs| ==> !HasAspectId(cs[i].aspects, id)
  }

  /** At least one comment, at least one aspect per comment, and sibling ids
      unique. */
  predicate WellFormed(cs: seq<Comment>) {
    && |cs| >= 1
    && CommentIdsUnique(cs)
    && forall i :: 0 <= i < |cs| ==> |cs[i].aspects| >= 1 && AspectIdsUnique(cs[i].aspects)
  }

  lemma InitialWellFormed()
    ensures WellFormed(InitialComments)
  {
  }

  // ----- filters -----

  /** `comments.filter(c => c.id !== id)`. */
  function WithoutComment(cs: seq<Comment>, id: string): (r: seq<Comment>)
    ensures |r| <= |cs|
  {
    if cs == [] then []
    else if cs[0].id != id then [cs[0]] + WithoutComment(cs[1..], id)
    else WithoutComment(cs[1..], id)
  }

  /** `aspects.filter(a => a.id !== id)`. */
  function WithoutAspect(as_: seq<AspectEntry>, id: string): (r: seq<AspectEntry>)
    ensures |r| <= |as_|
  {
    if as_ == [] then []
    else if as_[0].id != id then [as_[0]] + WithoutAspect(as_[1..], id)
    else WithoutAspect(as_[1..], id)
  }

  /** The filter keeps exactly the entries whose id differs. */
  lemma {:induction false} WithoutCommentMembers(cs: seq<Comment>, id: string)
    ensures forall c :: c in WithoutComment(cs, id) <==> c in cs && c.id != id
  {
    if cs != [] {
      WithoutCommentMembers(cs[1..], id);
      assert cs == [cs[0]] + cs[1..];
    }
  }

  /** Filtering out an id no comment has changes nothing. */
  lemma {:induction false} WithoutCommentAbsent(cs: seq<Comment>, id: string)
    requires !HasCommentId(cs, id)
    ensures WithoutComment(cs, id) == cs
  {
    if cs != [] {
      assert cs[0] in cs;
      WithoutCommentAbsent(cs[1..], id);
    }
  }

  /** With unique ids, filtering out the id of entry k removes exactly that
      entry and keeps the order of the others. */
  lemma {:induction false} WithoutCommentAt(cs: seq<Comment>, id: string, k: int)
    requires CommentIdsUnique(cs) && 0 <= k < |cs| && cs[k].id == id
    ensures WithoutComment(cs, id) == cs[..k] + cs[k + 1..]
  {
    if k == 0 {
      assert !HasCommentId(cs[1..], id) by {
        forall c | c in cs[1..] ensures c.id != id {
          var m :| 0 <= m < |cs[1..]| && cs[1..][m] == c;
          assert cs[m + 1] == c;
        }
      }
      WithoutCommentAbsent(cs[1..], id);
      assert cs[..0] + cs[1..] == cs[1..];
    } else {
      assert cs[0].id != id;
      assert WithoutComment(cs, id) == [cs[0]] + WithoutComment(cs[1..], id);
      WithoutCommentAt(cs[1..], id, k - 1);
      assert cs[1..][..k - 1] + cs[1..][k..] == cs[1..k] + cs[k + 1..];
      assert cs[..k] + cs[k + 1..] == [cs[0]] + (cs[1..k] + cs[k + 1..]);
    }
  }

  lemma {:induction false} WithoutCommentUnique(cs: seq<Comment>, id: string)
    requires CommentIdsUnique(cs)
    ensures CommentIdsUnique(WithoutComment(cs, id))
  {
    if cs != [] {
      WithoutCommentUnique(cs[1..], id);
      WithoutCommentMembers(cs[1..], id);
      var t := WithoutComment(cs[1..], id);
      if cs[0].id != id {
        var r := [cs[0]] + t;
        forall j | 0 < j < |r| ensures r[0].id != r[j].id {
          assert r[j] == t[j - 1];
          assert r[j] in cs[1..];
          var m :| 0 <= m < |cs[1..]| && cs[1..][m] == r[j];
          assert cs[m + 1] == r[j];
        }
        forall i, j | 0 <= i < j < |r| ensures r[i].id != r[j].id {
          if 0 < i {
            assert r[i] == t[i - 1] && r[j] == t[j - 1];
          }
        }
      }
    }
  }

  /** The filter keeps exactly the entries whose id differs. */
  lemma {:induction false} WithoutAspectMembers(as_: seq<AspectEntry>, id: string)
    ensures forall a :: a in WithoutAspect(as_, id) <==> a in as_ && a.id != id
  {
    if as_ != [] {
      WithoutAspectMembers(as_[1..], id);
      assert as_ == [as_[0]] + as_[1..];
    }
  }

  lemma {:induction false} WithoutAspectAbsent(as_: seq<AspectEntry>, id: string)
    requires !HasAspectId(as_, id)
    ensures WithoutAspect(as_, id) == as_
  {
    if as_ != [] {
      assert as_[0] in as_;
      WithoutAspectAbsent(as_[1..], id);
    }
  }

  lemma {:induction false} WithoutAspectAt(as_: seq<AspectEntry>, id: string, k: int)
    requires AspectIdsUnique(as_) && 0 <= k < |as_| && as_[k].id == id
    ensures WithoutAspect(as_, id) == as_[..k] + as_[k + 1..]
  {
    if k == 0 {
      assert !HasAspectId(as_[1..], id) by {
        forall a | a in as_[1..] ensures a.id != id {
          var m :| 0 <= m < |as_[1..]| && as_[1..][m] == a;
          assert as_[m + 1] == a;
        }
      }
      WithoutAspectAbsent(as_[1..], id);
      assert as_[..0] + as_[1..] == as_[1..];
    } else {
      assert as_[0].id != id;
      assert WithoutAspect(as_, id) == [as_[0]] + WithoutAspect(as_[1..], id);
      WithoutAspectAt(as_[1..], id, k - 1);
      assert as_[1..][..k - 1] + as_[1..][k..] == as_[1..k] + as_[k + 1..];
      assert as_[..k] + as_[k + 1..] == [as_[0]] + (as_[1..k] + as_[k + 1..]);
    }
  }

  lemma {:induction false} WithoutAspectUnique(as_: seq<AspectEntry>, id: string)
    requires AspectIdsUnique(as_)
    ensures AspectIdsUnique(WithoutAspect(as_, id))
  {
    if as_ != [] {
      WithoutAspectUnique(as_[1..], id);
      WithoutAspectMembers(as_[1..], id);
      var t := WithoutAspect(as_[1..], id);
      if as_[0].id != id {
        var r := [as_[0]] + t;
        forall j | 0 < j < |r| ensures r[0].id != r[j].id {
          assert r[j] == t[j - 1];
          assert r[j] in as_[1..];
          var m :| 0 <= m < |as_[1..]| && as_[1..][m] == r[j];
          assert as_[m + 1] == r[j];
        }
        forall i, j | 0 <= i < j < |r| ensures r[i].id != r[j].id {
          if 0 < i {
            assert r[i] == t[i - 1] && r[j] == t[j - 1];
          }
        }
      }
    }
  }

  /** With unique ids a filter removes at most one entry. */
  lemma WithoutCommentRemovesAtMostOne(cs: seq<Comment>, id: string)
    requires CommentIdsUnique(cs)
    ensures |WithoutComment(cs, id)| >= |cs| - 1
  {
    if HasCommentId(cs, id) {
      var c :| c in cs && c.id == id;
      var k :| 0 <= k < |cs| && cs[k] == c;
      WithoutCommentAt(cs, id, k);
    } else {
      WithoutCommentAbsent(cs, id);
    }
  }

  lemma WithoutAspectRemovesAtMostOne(as_: seq<AspectEntry>, id: string)
    requires AspectIdsUnique(as_)
    ensures |WithoutAspect(as_, id)| >= |as_| - 1
  {
    if HasAspectId(as_, id) {
      var a :| a in as_ && a.id == id;
      var k :| 0 <= k < |as_| && as_[k] == a;
      WithoutAspectAt(as_, id, k);
    } else {
      WithoutAspectAbsent(as_, id);
    }
  }

  // ----- the updaters -----

  /** `comments.map(c => c.id === id ? f(c) : c)`. */
  function MapComment(cs: seq<Comment>, id: string, f: Comment -> Comment): (r: seq<Comment>)
    ensures |r| == |cs|
    ensures forall i :: 0 <= i < |cs| ==> r[i] == if cs[i].id == id then f(cs[i]) else cs[i]
  {
    if cs == [] then [] else [if cs[0].id == id then f(cs[0]) else cs[0]] + MapComment(cs[1..], id, f)
  }

  /** `aspects.map(a => a.id === id ? f(a) : a)`. */
  function MapAspect(as_: seq<AspectEntry>, id: string, f: AspectEntry -> AspectEntry): (r: seq<AspectEntry>)
    ensures |r| == |as_|
    ensures forall i :: 0 <= i < |as_| ==> r[i] == if as_[i].id == id then f(as_[i]) else as_[i]
  {
    if as_ == [] then [] else [if as_[0].id == id then f(as_[0]) else as_[0]] + MapAspect(as_[1..], id, f)
  }

  /** Appends one blank comment (neutral, empty text) that holds one blank
      aspect; the existing comments are kept as they are. */
  function AddComment(cs: seq<Comment>, id: string, aspectId: string): (r: seq<Comment>)
    ensures |r| == |cs| + 1 && r[..|cs|] == cs
    ensures r[|cs|].id == id && r[|cs|].text == "" && r[|cs|].generalSentiment == Neutral
    ensures r[|cs|].aspects == [AspectEntry(aspectId, "", Neutral)]
  {
    cs + [BlankComment(id, aspectId)]
  }

  /** Refuses (returns the list unchanged) when at most one comment is left;
      otherwise drops every comment with the id. */
  function RemoveComment(cs: seq<Comment>, id: string): (r: seq<Comment>)
    ensures |cs| <= 1 ==> r == cs
    ensures |cs| > 1 ==> forall c :: c in r <==> c in cs && c.id != id
  {
    WithoutCommentMembers(cs, id);
    if |cs| <= 1 then cs else WithoutComment(cs, id)
  }

  function SetCommentText(cs: seq<Comment>, id: string, text: string): (r: seq<Comment>)
    ensures |r| == |cs|
    ensures forall i :: 0 <= i < |cs| ==>
      && r[i].id == cs[i].id && r[i].aspects == cs[i].aspects && r[i].generalSentiment == cs[i].generalSentiment
      && r[i].text == (if cs[i].id == id then text else cs[i].text)
  {
    MapComment(cs, id, (c: Comment) => c.(text := text))
  }

  /** Appends one blank neutral aspect to the comment with the id. */
  function AddAspect(cs: seq<Comment>, id: string, aspectId: string): (r: seq<Comment>)
    ensures |r| == |cs|
    ensures forall i :: 0 <= i < |cs| ==>
      && r[i].id == cs[i].id && r[i].text == cs[i].text && r[i].generalSentiment == cs[i].generalSentiment
      && r[i].aspects == (if cs[i].id == id then cs[i].aspects + [AspectEntry(aspectId, "", Neutral)] else cs[i].aspects)
  {
    MapComment(cs, id, (c: Comment) => c.(aspects := c.aspects + [BlankAspect(aspectId)]))
  }

  /** Drops the aspect from the comment with the id, unless it is that
      comment's only aspect. */
  function RemoveAspect(cs: seq<Comment>, id: string, aspectId: string): (r: seq<Comment>)
    ensures |r| == |cs|
    ensures forall i :: 0 <= i < |cs| ==>
      && r[i].id == cs[i].id && r[i].text == cs[i].text && r[i].generalSentiment == cs[i].generalSentiment
      && r[i].aspects == (if cs[i].id == id && |cs[i].aspects| > 1 then WithoutAspect(cs[i].aspects, aspectId) else cs[i].aspects)
  {
    MapComment(cs, id, (c: Comment) => c.(aspects := if |c.aspects| > 1 then WithoutAspect(c.aspects, aspectId) else c.aspects))
  }

  function SetField(a: AspectEntry, field: AspectField): AspectEntry {
    match field
    case AspectName(name) => a.(aspect := name)
    case AspectSentiment(s) => a.(sentiment := s)
  }

  /** Sets one field of the aspect with `aspectId` inside the comment with
      `id`; every other aspect and every other field is left alone. */
  function SetAspectField(cs: seq<Comment>, id: string, aspectId: string, field: AspectField): (r: seq<Comment>)
    ensures |r| == |cs|
    ensures forall i :: 0 <= i < |cs| ==>
      && r[i].id == cs[i].id && r[i].text == cs[i].text && r[i].generalSentiment == cs[i].generalSentiment
      && |r[i].aspects| == |cs[i].aspects|
      && forall j :: 0 <= j < |cs[i].aspects| ==>
           var a := cs[i].aspects[j];
           r[i].aspects[j] == if cs[i].id == id && a.id == aspectId then SetField(a, field) else a
  {
    MapComment(cs, id, (c: Comment) => c.(aspects := MapAspect(c.aspects, aspectId, (a: AspectEntry) => SetField(a, field))))
  }

  function SetGeneralSentiment(cs: seq<Comment>, id: string, s: Sentiment): (r: seq<Comment>)
    ensures |r| == |cs|
    ensures forall i :: 0 <= i < |cs| ==>
      && r[i].id == cs[i].id && r[i].text == cs[i].text && r[i].aspects == cs[i].aspects
      && r[i].generalSentiment == (if cs[i].id == id then s else cs[i].generalSentiment)
  {
    MapComment(cs, id, (c: Comment) => c.(generalSentiment := s))
  }

  /** The per-id setters change nothing when no comment has the id. */
  lemma SettersAbsentId(cs: seq<Comment>, id: string, text: string, aspectId: string, field: AspectField, s: Sentiment)
    requires !HasCommentId(cs, id)
    ensures SetCommentText(cs, id, text) == cs
    ensures SetGeneralSentiment(cs, id, s) == cs
    ensures SetAspectField(cs, id, aspectId, field) == cs
    ensures AddAspect(cs, id, aspectId) == cs
    ensures RemoveAspect(cs, id, aspectId) == cs
  {
    assert forall i :: 0 <= i < |cs| ==> cs[i].id != id;
    assert SetAspectField(cs, id, aspectId, field) == cs by {
      var r := SetAspectField(cs, id, aspectId, field);
      forall i | 0 <= i < |cs| ensures r[i] == cs[i] {
        assert r[i].aspects == cs[i].aspects;
      }
    }
  }

  // ----- the invariant across edits -----

  /** One edit of the comment list, as the wizard's handlers make them. */
  datatype Edit =
    | AddCommentEdit(id: string, aspectId: string)
    | RemoveCommentEdit(id: string)
    | SetTextEdit(id: string, text: string)
    | AddAspectEdit(id: string, aspectId: string)
    | RemoveAspectEdit(id: string, aspectId: string)
    | SetAspectFieldEdit(id: string, aspectId: string, field: AspectField)
    | SetSentimentEdit(id: string, sentiment: Sentiment)

  function ApplyEdit(cs: seq<Comment>, e: Edit): seq<Comment> {
    match e
    case AddCommentEdit(id, aid) => AddComment(cs, id, aid)
    case RemoveCommentEdit(id) => RemoveComment(cs, id)
    case SetTextEdit(id, text) => SetCommentText(cs, id, text)
    case AddAspectEdit(id, aid) => AddAspect(cs, id, aid)
    case RemoveAspectEdit(id, aid) => RemoveAspect(cs, id, aid)
    case SetAspectFieldEdit(id, aid, f) => SetAspectField(cs, id, aid, f)
    case SetSentimentEdit(id, s) => SetGeneralSentiment(cs, id, s)
  }

  /** The ids an edit creates are fresh: what the UUID generator promises. */
  predicate FreshFor(cs: seq<Comment>, e: Edit) {
    match e
    case AddCommentEdit(id, aid) => !HasCommentId(cs, id)
    case AddAspectEdit(id, aid) => AspectIdUnused(cs, aid)
    case _ => true
  }

  /** Every edit with fresh ids keeps the draft well formed: the comment list
      never becomes empty and no comment loses its last aspect. */
  lemma EditKeepsWellFormed(cs: seq<Comment>, e: Edit)
    requires WellFormed(cs) && FreshFor(cs, e)
    ensures WellFormed(ApplyEdit(cs, e))
  {
    match e
    case AddCommentEdit(id, aid) =>
      assert forall i :: 0 <= i < |cs| ==> cs[i].id != id;
    case RemoveCommentEdit(id) =>
      RemoveCommentKeeps(cs, id);
    case SetTextEdit(id, text) =>
    case AddAspectEdit(id, aid) =>
      AddAspectKeeps(cs, id, aid);
    case RemoveAspectEdit(id, aid) =>
      RemoveAspectKeeps(cs, id, aid);
    case SetAspectFieldEdit(id, aid, f) =>
      SetAspectFieldKeeps(cs, id, aid, f);
    case SetSentimentEdit(id, s) =>
  }

  lemma RemoveCommentKeeps(cs: seq<Comment>, id: string)
    requires WellFormed(cs)
    ensures WellFormed(RemoveComment(cs, id))
  {
    if |cs| > 1 {
      var r := RemoveComment(cs, id);
      WithoutCommentRemovesAtMostOne(cs, id);
      WithoutCommentUnique(cs, id);
      WithoutCommentMembers(cs, id);
      forall i | 0 <= i < |r| ensures |r[i].aspects| >= 1 && AspectIdsUnique(r[i].aspects) {
        assert r[i] in cs;
      }
    }
  }

  lemma AddAspectKeeps(cs: seq<Comment>, id: string, aid: string)
    requires WellFormed(cs) && AspectIdUnused(cs, aid)
    ensures WellFormed(AddAspect(cs, id, aid))
  {
    var r := AddAspect(cs, id, aid);
    forall i | 0 <= i < |r| ensures AspectIdsUnique(r[i].aspects) {
      if cs[i].id == id {
        assert !HasAspectId(cs[i].aspects, aid);
        assert r[i].aspects == cs[i].aspects + [BlankAspect(aid)];
      }
    }
  }

  lemma RemoveAspectKeeps(cs: seq<Comment>, id: string, aid: string)
    requires WellFormed(cs)
    ensures WellFormed(RemoveAspect(cs, id, aid))
  {
    var r := RemoveAspect(cs, id, aid);
    forall i | 0 <= i < |r| ensures |r[i].aspects| >= 1 && AspectIdsUnique(r[i].aspects) {
      if cs[i].id == id && |cs[i].aspects| > 1 {
        WithoutAspectRemovesAtMostOne(cs[i].aspects, aid);
        WithoutAspectUnique(cs[i].aspects, aid);
      }
    }
  }

  lemma SetAspectFieldKeeps(cs: seq<Comment>, id: string, aid: string, f: AspectField)
    requires WellFormed(cs)
    ensures WellFormed(SetAspectField(cs, id, aid, f))
  {
    var r := SetAspectField(cs, id, aid, f);
    forall i | 0 <= i < |r| ensures AspectIdsUnique(r[i].aspects) {
      assert forall j :: 0 <= j < |r[i].aspects| ==> r[i].aspects[j].id == cs[i].aspects[j].id;
    }
  }

  /** Each edit of the run gets fresh ids with respect to the draft it edits. */
  predicate FreshRun(cs: seq<Comment>, edits: seq<Edit>)
    decreases |edits|
  {
    edits == [] || (FreshFor(cs, edits[0]) && FreshRun(ApplyEdit(cs, edits[0]), edits[1..]))
  }

  function ApplyEdits(cs: seq<Comment>, edits: seq<Edit>): seq<Comment>
    decreases |edits|
  {
    if edits == [] then cs else ApplyEdits(ApplyEdit(cs, edits[0]), edits[1..])
  }

  /** Over any run of edits with fresh ids, starting from a well-formed draft
      (the initial one is), the draft stays well formed. */
  lemma {:induction false} EditsKeepWellFormed(cs: seq<Comment>, edits: seq<Edit>)
    requires WellFormed(cs) && FreshRun(cs, edits)
    ensures WellFormed(ApplyEdits(cs, edits))
    decreases |edits|
  {
    if edits != [] {
      EditKeepsWellFormed(cs, edits[0]);
      EditsKeepWellFormed(ApplyEdit(cs, edits[0]), edits[1..]);
    }
  }

  /** Without unique ids the guard does not protect the last comment: two
      comments sharing an id are both filtered out. */
  lemma RemoveCommentNeedsUniqueIds(c: Comment)
    ensures RemoveComment([c, c], c.id) == []
  {
    assert WithoutComment([c, c], c.id) == WithoutComment([c], c.id);
  }

  // ----- validation and the submission -----

  /** Every comment has text and every aspect has a name, after trimming. */
  predicate CommentsFilled(cs: seq<Comment>) {
    forall i :: 0 <= i < |cs| ==>
      Text.HasContent(cs[i].text) && forall j :: 0 <= j < |cs[i].aspects| ==> Text.HasContent(cs[i].aspects[j].aspect)
  }

  datatype AspectPayload = AspectPayload(aspectName: string, aspectText: string, sentiment: Sentiment)

  datatype CommentPayload = CommentPayload(text: string, generalSentiment: Sentiment, aspects: seq<AspectPayload>)

  function AspectsPayload(as_: seq<AspectEntry>): (r: seq<AspectPayload>)
    ensures |r| == |as_|
    ensures forall j :: 0 <= j < |as_| ==>
      r[j].aspectName == as_[j].aspect && r[j].aspectText == "" && r[j].sentiment == as_[j].sentiment
  {
    if as_ == [] then [] else [AspectPayload(as_[0].aspect, "", as_[0].sentiment)] + AspectsPayload(as_[1..])
  }

  /** The comments of the create-post request: order and counts kept, the
      aspect name sent as `aspect_name` with an empty `aspect_text`, and the
      client ids dropped. */
  function CommentsPayload(cs: seq<Comment>): (r: seq<CommentPayload>)
    ensures |r| == |cs|
    ensures forall i :: 0 <= i < |cs| ==>
      r[i].text == cs[i].text && r[i].generalSentiment == cs[i].generalSentiment
      && r[i].aspects == AspectsPayload(cs[i].aspects)
  {
    if cs == [] then []
    else [CommentPayload(cs[0].text, cs[0].generalSentiment, AspectsPayload(cs[0].aspects))] + CommentsPayload(cs[1..])
  }

  /** Two drafts that differ only in their client ids. */
  predicate SameButIds(cs: seq<Comment>, ds: seq<Comment>) {
    && |cs| == |ds|
    && forall i :: 0 <= i < |cs| ==>
      && cs[i].text == ds[i].text && cs[i].generalSentiment == ds[i].generalSentiment
      && |cs[i].aspects| == |ds[i].aspects|
      && forall j :: 0 <= j < |cs[i].aspects| ==>
           cs[i].aspects[j].aspect == ds[i].aspects[j].aspect
           && cs[i].aspects[j].sentiment == ds[i].aspects[j].sentiment
  }

  /** The payload does not depend on the client ids. */
  lemma PayloadIgnoresIds(cs: seq<Comment>, ds: seq<Comment>)
    requires SameButIds(cs, ds)
    ensures CommentsPayload(cs) == CommentsPayload(ds)
  {
    var p, q := CommentsPayload(cs), CommentsPayload(ds);
    forall i | 0 <= i < |cs| ensures p[i] == q[i] {
      var a, b := AspectsPayload(cs[i].aspects), AspectsPayload(ds[i].aspects);
      assert forall j :: 0 <= j < |a| ==> a[j] == b[j];
    }
  }
}
