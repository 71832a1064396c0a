/** The post endpoints that write: the update guard and the review action.
    Each runs in one transaction; a response other than success leaves
    every table as it was. A post is found only among the requesting
    user's own posts. */
module PostViews {
  import opened Wrappers
  import opened Choices
  import opened Records
  import opened Serializers

  datatype Response =
    | Ok
    | NotFound
    | BadRequest(detail: string)
    /** The serializer rejected the request body. */
    | ValidationError
    /** An integrity error inside the transaction. */
    | ServerError

  const ReviewedDetail: string := "Cannot modify a reviewed post"
  const AlreadyReviewedDetail: string := "Post is already reviewed"

  /** `get_object()` over `Post.objects.filter(user=request.user)`. */
  predicate Visible(posts: map<int, PostRow>, user: int, p: int) {
    p in posts && posts[p].user == Some(user)
  }

  function VisibleKeys(posts: map<int, PostRow>, user: int): (r: set<int>)
    ensures forall k :: k in r <==> Visible(posts, user, k)
  {
    set k | k in posts && posts[k].user == Some(user)
  }

  /** The `unreviewed` and `reviewed` listings. */
  function ListingKeys(posts: map<int, PostRow>, user: int, status: Status): (r: set<int>)
    ensures forall k :: k in r <==> Visible(posts, user, k) && posts[k].status == status
  {
    set k | k in posts && posts[k].user == Some(user) && posts[k].status == status
  }

  /** With two statuses the two listings split the user's posts: every
      post is in exactly one of them. */
  lemma ListingsPartition(posts: map<int, PostRow>, user: int)
    ensures ListingKeys(posts, user, Unreviewed) + ListingKeys(posts, user, Reviewed) == VisibleKeys(posts, user)
    ensures ListingKeys(posts, user, Unreviewed) * ListingKeys(posts, user, Reviewed) == {}
  {
    forall k | k in VisibleKeys(posts, user)
      ensures k in ListingKeys(posts, user, Unreviewed) + ListingKeys(posts, user, Reviewed)
    {
      match posts[k].status
      case Unreviewed =>
      case Reviewed =>
    }
  }

  /** The row after the review action marks it. */
  function MarkReviewed(row: PostRow, user: int, now: int): (r: PostRow)
    ensures r.status == Reviewed && r.reviewedBy == Some(user) && r.reviewedAt == Some(now)
    ensures r.caption == row.caption && r.source == row.source && r.user == row.user
  {
    row.(status := Reviewed, reviewedBy := Some(user), reviewedAt := Some(now))
  }

  /** `PostViewSet.update`: a reviewed post is read-only to anyone but
      staff; `valid` is whether the serializer accepts the body `d`. */
  method Update(db: Database, user: int, isStaff: bool, p: int, valid: bool, d: PostData, initialUsage: int)
    returns (r: Response)
    requires db.Valid()
    modifies db
    ensures db.Valid()
    ensures !Visible(old(db.posts), user, p) ==> r == NotFound
    ensures Visible(old(db.posts), user, p) && old(db.posts)[p].status == Reviewed && !isStaff ==>
      r == BadRequest(ReviewedDetail)
    ensures Visible(old(db.posts), user, p) && (old(db.posts)[p].status == Unreviewed || isStaff) ==>
      && (!valid ==> r == ValidationError)
      && (valid ==> r == Ok || r == ServerError)
      && (valid && NoIds(CommentsOf(d)) ==> r == Ok)
    ensures r != Ok ==>
      db.posts == old(db.posts) && db.comments == old(db.comments) && db.aspects == old(db.aspects) && db.sources == old(db.sources)
    ensures r == Ok ==>
      && db.posts == old(db.posts)[p := PostAfter(old(db.posts)[p], d)]
      && db.sources == SourcesAfter(old(db.sources), d.source, initialUsage)
    ensures r == Ok ==>
      exists keys :: Reconciled(old(db.comments), old(db.aspects), db.comments, db.aspects, p, CommentsOf(d), keys)
  {
    if !Visible(db.posts, user, p) {
      return NotFound;
    }
    if db.posts[p].status == Reviewed && !isStaff {
      return BadRequest(ReviewedDetail);
    }
    if !valid {
      return ValidationError;
    }
    var ok, keys := db.UpdatePost(p, d, initialUsage);
    r := if ok then Ok else ServerError;
  }

  /** The `review` action at time `now`. `data` is the request body when
      it is not empty, applied as a partial update before the post is
      marked; `valid` is whether the serializer accepts it. */
  method Review(db: Database, user: int, p: int, data: Option<PostData>, valid: bool, now: int, initialUsage: int)
    returns (r: Response)
    requires db.Valid()
    modifies db
    ensures db.Valid()
    ensures !Visible(old(db.posts), user, p) ==> r == NotFound
    ensures Visible(old(db.posts), user, p) && old(db.posts)[p].status == Reviewed ==> r == BadRequest(AlreadyReviewedDetail)
    ensures Visible(old(db.posts), user, p) && old(db.posts)[p].status == Unreviewed ==>
      && (data.Some? && !valid ==> r == ValidationError)
      && (data.None? || (valid && NoIds(CommentsOf(data.value))) ==> r == Ok)
      && (r == Ok || r == ValidationError || r == ServerError)
    ensures r != Ok ==>
      db.posts == old(db.posts) && db.comments == old(db.comments) && db.aspects == old(db.aspects) && db.sources == old(db.sources)
    ensures r == Ok && data.None? ==>
      db.posts == old(db.posts)[p := MarkReviewed(old(db.posts)[p], user, now)]
      && db.comments == old(db.comments) && db.aspects == old(db.aspects) && db.sources == old(db.sources)
    ensures r == Ok && data.Some? ==>
      && db.posts == old(db.posts)[p := MarkReviewed(PostAfter(old(db.posts)[p], data.value), user, now)]
      && db.sources == SourcesAfter(old(db.sources), data.value.source, initialUsage)
      && exists keys :: Reconciled(old(db.comments), old(db.aspects), db.comments, db.aspects, p, CommentsOf(data.value), keys)
  {
    if !Visible(db.posts, user, p) {
      return NotFound;
    }
    if db.posts[p].status == Reviewed {
      return BadRequest(AlreadyReviewedDetail);
    }
    ghost var keys: seq<int> := [];
    if data.Some? {
      if !valid {
        return ValidationError;
      }
      var ok;
      ok, keys := db.UpdatePost(p, data.value, initialUsage);
      if !ok {
        return ServerError;
      }
    }
    db.posts := db.posts[p := MarkReviewed(db.posts[p], user, now)];
    r := Ok;
    assert data.Some? ==>
      Reconciled(old(db.comments), old(db.aspects), db.comments, db.aspects, p, CommentsOf(data.value), keys);
  }

  /** A post can be reviewed once: whatever the second request carries,
      after a successful review it is refused, and the post keeps the
      reviewer and the time of the first review. */
  method ReviewTwice(db: Database, user: int, p: int, first: Option<PostData>, second: Option<PostData>,
                     valid: bool, now: int, later: int, initialUsage: int)
    returns (r1: Response, r2: Response)
    requires db.Valid()
    modifies db
    ensures r1 == Ok ==> r2 == BadRequest(AlreadyReviewedDetail)
    ensures r1 == Ok ==> p in db.posts && db.posts[p].reviewedAt == Some(now) && db.posts[p].reviewedBy == Some(user)
  {
    r1 := Review(db, user, p, first, valid, now, initialUsage);
    r2 := Review(db, user, p, second, valid, later, initialUsage);
  }
}
