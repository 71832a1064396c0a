/** The server's tables as rows, and the validated request data the
    serializers receive. In validated data every key may be absent; a
    missing key on create falls back to the column's default, the empty
    string, which for a sentiment column is no sentiment at all. */
module Records {
  import opened Wrappers
  import opened Choices
  import opened Text

  datatype PostRow = PostRow(
    caption: string,
    source: Option<string>,
    user: Option<int>,
    status: Status,
    reviewedBy: Option<int>,
    reviewedAt: Option<int>)

  datatype CommentRow = CommentRow(post: int, text: string, generalSentiment: Option<Sentiment>)

  datatype AspectRow = AspectRow(comment: int, aspectName: string, aspectText: string, sentiment: Option<Sentiment>)

  datatype AspectData = AspectData(
    id: Option<int>,
    aspectName: Option<string>,
    aspectText: Option<string>,
    sentiment: Option<Sentiment>)

  datatype CommentData = CommentData(
    id: Option<int>,
    text: Option<string>,
    generalSentiment: Option<Sentiment>,
    aspects: Option<seq<AspectData>>)

  datatype PostData = PostData(caption: Option<string>, source: Option<string>, comments: Option<seq<CommentData>>)

  /** "The id is given, truthy, and one of these": the test that decides
      between updating an existing child and creating a new one. Python
      treats the id 0 as false. */
  predicate Matches(id: Option<int>, existing: set<int>) {
    id.Some? && id.value != 0 && id.value in existing
  }

  /** `AspectSerializer.update`: each field is replaced only when its key
      is present. */
  function MergeAspect(row: AspectRow, d: AspectData): (r: AspectRow)
    ensures r.comment == row.comment
    ensures r.aspectName == if d.aspectName.Some? then d.aspectName.value else row.aspectName
    ensures r.aspectText == if d.aspectText.Some? then d.aspectText.value else row.aspectText
    ensures r.sentiment == if d.sentiment.Some? then d.sentiment else row.sentiment
  {
    AspectRow(row.comment, d.aspectName.GetOr(row.aspectName), d.aspectText.GetOr(row.aspectText),
              if d.sentiment.Some? then d.sentiment else row.sentiment)
  }

  /** Merging is idempotent, data with no keys changes nothing, and data
      with every key overrides whatever was merged before. */
  lemma MergeAspectLaws(row: AspectRow, d: AspectData, e: AspectData)
    ensures MergeAspect(MergeAspect(row, d), d) == MergeAspect(row, d)
    ensures MergeAspect(row, AspectData(d.id, None, None, None)) == row
    ensures e.aspectName.Some? && e.aspectText.Some? && e.sentiment.Some? ==>
      MergeAspect(MergeAspect(row, d), e) == MergeAspect(row, e)
  {
  }

  /** The text and general-sentiment merge of `CommentSerializer.update`. */
  function MergeComment(row: CommentRow, d: CommentData): (r: CommentRow)
    ensures r.post == row.post
    ensures r.text == if d.text.Some? then d.text.value else row.text
    ensures r.generalSentiment == if d.generalSentiment.Some? then d.generalSentiment else row.generalSentiment
  {
    CommentRow(row.post, d.text.GetOr(row.text), if d.generalSentiment.Some? then d.generalSentiment else row.generalSentiment)
  }

  lemma MergeCommentLaws(row: CommentRow, d: CommentData)
    ensures MergeComment(MergeComment(row, d), d) == MergeComment(row, d)
    ensures MergeComment(row, CommentData(d.id, None, None, d.aspects)) == row
  {
  }

  /** A new aspect row: the given fields, defaults for the missing ones. */
  function NewAspectRow(comment: int, d: AspectData): AspectRow {
    AspectRow(comment, d.aspectName.GetOr(""), d.aspectText.GetOr(""), d.sentiment)
  }

  function NewCommentRow(post: int, d: CommentData): CommentRow {
    CommentRow(post, d.text.GetOr(""), d.generalSentiment)
  }

  /** A missing child list is taken as the empty list. */
  function AspectsOf(d: CommentData): seq<AspectData> {
    d.aspects.GetOr([])
  }

  function CommentsOf(d: PostData): seq<CommentData> {
    d.comments.GetOr([])
  }

  /** Every merge of `row` with the entries of `inc` that match id k, in
      order: what a run of the update loop does to existing child k. */
  function MergeAll(row: AspectRow, inc: seq<AspectData>, k: int): (r: AspectRow)
    ensures r.comment == row.comment
    decreases |inc|
  {
    if inc == [] then row
    else MergeAll(if Matches(inc[0].id, {k}) then MergeAspect(row, inc[0]) else row, inc[1..], k)
  }

  /** One more entry merges once more if it matches. */
  lemma {:induction false} MergeAllSnoc(row: AspectRow, inc: seq<AspectData>, x: AspectData, k: int)
    ensures MergeAll(row, inc + [x], k) ==
      var m := MergeAll(row, inc, k); if Matches(x.id, {k}) then MergeAspect(m, x) else m
    decreases |inc|
  {
    if inc == [] {
      assert [x][1..] == [];
    } else {
      assert (inc + [x])[1..] == inc[1..] + [x];
      MergeAllSnoc(if Matches(inc[0].id, {k}) then MergeAspect(row, inc[0]) else row, inc[1..], x, k);
    }
  }

  /** With no entry for k the row is left as it is. */
  lemma {:induction false} MergeAllUntouched(row: AspectRow, inc: seq<AspectData>, k: int)
    requires forall i :: 0 <= i < |inc| ==> !Matches(inc[i].id, {k})
    ensures MergeAll(row, inc, k) == row
    decreases |inc|
  {
    if inc != [] {
      MergeAllUntouched(row, inc[1..], k);
    }
  }

  /** The same fold for comment rows. */
  function MergeAllComments(row: CommentRow, inc: seq<CommentData>, k: int): (r: CommentRow)
    ensures r.post == row.post
    decreases |inc|
  {
    if inc == [] then row
    else MergeAllComments(if Matches(inc[0].id, {k}) then MergeComment(row, inc[0]) else row, inc[1..], k)
  }

  lemma {:induction false} MergeAllCommentsSnoc(row: CommentRow, inc: seq<CommentData>, x: CommentData, k: int)
    ensures MergeAllComments(row, inc + [x], k) ==
      var m := MergeAllComments(row, inc, k); if Matches(x.id, {k}) then MergeComment(m, x) else m
    decreases |inc|
  {
    if inc == [] {
      assert [x][1..] == [];
    } else {
      assert (inc + [x])[1..] == inc[1..] + [x];
      MergeAllCommentsSnoc(if Matches(inc[0].id, {k}) then MergeComment(row, inc[0]) else row, inc[1..], x, k);
    }
  }

  /** The source name a post stores: the given name upper-cased. */
  function SourceName(given: string): (r: string)
    ensures r == Upper(given)
    ensures |r| == |given| && forall i :: 0 <= i < |given| ==> r[i] == UpperChar(given[i])
    ensures Upper(r) == r
  {
    UpperIdempotent(given);
    Upper(given)
  }

  /** `get_or_create` of the upper-cased name, counting one more use when
      the source was already there; a new source starts at `initialUsage`. */
  function SourcesAfter(sources: map<string, int>, given: Option<string>, initialUsage: int): (r: map<string, int>)
    ensures given.None? ==> r == sources
    ensures given.Some? ==> r.Keys == sources.Keys + {SourceName(given.value)}
    ensures given.Some? ==> forall n :: n in sources && n != SourceName(given.value) ==> r[n] == sources[n]
    ensures given.Some? && SourceName(given.value) in sources ==>
      r[SourceName(given.value)] == sources[SourceName(given.value)] + 1
    ensures given.Some? && SourceName(given.value) !in sources ==> r[SourceName(given.value)] == initialUsage
  {
    if given.None? then sources
    else
      var n := SourceName(given.value);
      sources[n := if n in sources then sources[n] + 1 else initialUsage]
  }

  /** Two spellings of a source that differ only in ASCII case count as one. */
  lemma SourceNameIgnoresCase(a: string, b: string)
    requires |a| == |b| && forall i :: 0 <= i < |a| ==> UpperChar(a[i]) == UpperChar(b[i])
    ensures SourceName(a) == SourceName(b)
  {
    assert forall i :: 0 <= i < |a| ==> SourceName(a)[i] == SourceName(b)[i];
  }

  /** The post row after the update's own fields: the source, if given,
      then the caption, if given. Status, user and review fields are
      read-only to the serializer. */
  function PostAfter(row: PostRow, d: PostData): (r: PostRow)
    ensures r.caption == if d.caption.Some? then d.caption.value else row.caption
    ensures r.source == if d.source.Some? then Some(SourceName(d.source.value)) else row.source
    ensures r.user == row.user && r.status == row.status
    ensures r.reviewedBy == row.reviewedBy && r.reviewedAt == row.reviewedAt
  {
    var withSource := if d.source.Some? then row.(source := Some(SourceName(d.source.value))) else row;
    withSource.(caption := d.caption.GetOr(row.caption))
  }

  /** `get_username`: no user, no name. */
  function Username(row: PostRow, usernames: map<int, string>): (r: Option<string>)
    requires row.user.Some? ==> row.user.value in usernames
    ensures row.user.None? <==> r.None?
    ensures row.user.Some? ==> r == Some(usernames[row.user.value])
  {
    match row.user
    case None => None
    case Some(u) => Some(usernames[u])
  }

  /** The keys of the aspects a comment holds. */
  function AspectKeysOf(aspects: map<int, AspectRow>, comment: int): (r: set<int>)
    ensures forall k :: k in r <==> k in aspects && aspects[k].comment == comment
  {
    set k | k in aspects && aspects[k].comment == comment
  }

  /** The keys of the comments a post holds. */
  function CommentKeysOf(comments: map<int, CommentRow>, post: int): (r: set<int>)
    ensures forall k :: k in r <==> k in comments && comments[k].post == post
  {
    set k | k in comments && comments[k].post == post
  }

  /** Some incoming entry names the key explicitly. */
  predicate ListedAspect(inc: seq<AspectData>, k: int) {
    exists i :: 0 <= i < |inc| && inc[i].id == Some(k)
  }

  predicate ListedComment(inc: seq<CommentData>, k: int) {
    exists i :: 0 <= i < |inc| && inc[i].id == Some(k)
  }

  /** No comment and no aspect of the request carries an id: a request
      that only creates. */
  predicate NoIds(inc: seq<CommentData>) {
    forall i :: 0 <= i < |inc| ==>
      inc[i].id.None? && forall t :: 0 <= t < |AspectsOf(inc[i])| ==> AspectsOf(inc[i])[t].id.None?
  }
}
