/** The nested update of a post: the post's own fields, then its comments
    matched to the existing ones by id, each matched comment updated with
    its aspects matched the same way, unmatched entries created, and the
    existing children no entry lists deleted. The database is three tables
    and the source table, each a map from key to row, with one id sequence
    per table. */
module Serializers {
  import opened Wrappers
  import opened Records
  import opened Choices

  /** Merging one more entry into every existing child: only the child the
      entry names is merged once more. */
  lemma MergeAllStep(old_: map<int, AspectRow>, existing: set<int>, inc: seq<AspectData>, i: int)
    requires 0 <= i < |inc| && existing <= old_.Keys
    ensures forall k :: k in existing ==>
      (MergeAll(old_[k], inc[..i + 1], k) ==
       var m := MergeAll(old_[k], inc[..i], k); if Matches(inc[i].id, {k}) then MergeAspect(m, inc[i]) else m)
  {
    forall k | k in existing
      ensures MergeAll(old_[k], inc[..i + 1], k) ==
        var m := MergeAll(old_[k], inc[..i], k); if Matches(inc[i].id, {k}) then MergeAspect(m, inc[i]) else m
    {
      assert inc[..i + 1] == inc[..i] + [inc[i]];
      MergeAllSnoc(old_[k], inc[..i], inc[i], k);
    }
  }

  /** What the aspect loop has done so far to the table `a0` it started
      from: no row deleted, rows of other comments untouched, each
      existing row of `c` merged with the entries seen, new rows only for
      `c`. */
  ghost predicate AspectsFramed(a0: map<int, AspectRow>, a: map<int, AspectRow>, c: int, existing: set<int>, seen: seq<AspectData>) {
    && (forall k :: k in a0 ==> k in a)
    && (forall k :: k in a0 && a0[k].comment != c ==> a[k] == a0[k])
    && (forall k :: k in existing && k in a0 ==> a[k] == MergeAll(a0[k], seen, k))
    && (forall k :: k in a && k !in a0 ==> a[k].comment == c)
  }

  /** The keys the first |updated| entries went to: the named key for a
      matching entry, a new row built from the entry otherwise. */
  ghost predicate AspectsPlaced(a0: map<int, AspectRow>, a: map<int, AspectRow>, c: int, existing: set<int>,
                                inc: seq<AspectData>, updated: seq<int>) {
    && |updated| <= |inc|
    && (forall j :: 0 <= j < |updated| && Matches(inc[j].id, existing) ==> updated[j] == inc[j].id.value)
    && (forall j :: 0 <= j < |updated| && !Matches(inc[j].id, existing) ==>
          && updated[j] !in a0 && updated[j] in a
          && a[updated[j]] == NewAspectRow(c, inc[j])
          && (inc[j].id.Some? ==> updated[j] == inc[j].id.value))
  }

  /** One pass of the loop keeps both summaries. */
  lemma AspectsStep(a0: map<int, AspectRow>, a: map<int, AspectRow>, a': map<int, AspectRow>, c: int, existing: set<int>,
                    inc: seq<AspectData>, updated: seq<int>, key: int)
    requires |updated| < |inc| && existing <= a0.Keys
    requires forall k :: k in existing ==> a0[k].comment == c
    requires AspectsFramed(a0, a, c, existing, inc[..|updated|])
    requires AspectsPlaced(a0, a, c, existing, inc, updated)
    requires var e := inc[|updated|];
      Matches(e.id, existing) ==> key == e.id.value && a' == a[key := MergeAspect(a[key], e)]
    requires var e := inc[|updated|];
      !Matches(e.id, existing) ==>
        key !in a && a' == a[key := NewAspectRow(c, e)] && (e.id.Some? ==> key == e.id.value)
    ensures AspectsFramed(a0, a', c, existing, inc[..|updated| + 1])
    ensures AspectsPlaced(a0, a', c, existing, inc, updated + [key])
  {
    MergeAllStep(a0, existing, inc, |updated|);
  }

  /** What the comment loop of `PostSerializer.update` has done so far to
      the tables `c0` and `a0` it started from, for post `p`. */
  ghost predicate CommentsFramed(c0: map<int, CommentRow>, c: map<int, CommentRow>,
                                 a0: map<int, AspectRow>, a: map<int, AspectRow>,
                                 p: int, existing: set<int>, seen: seq<CommentData>) {
    && (forall k :: k in c0 ==> k in c)
    && (forall k :: k in c0 && c0[k].post != p ==> c[k] == c0[k])
    && (forall k :: k in existing && k in c0 ==> c[k] == MergeAllComments(c0[k], seen, k))
    && (forall k :: k in c && k !in c0 ==> c[k].post == p)
    && (forall k :: k in a0 && a0[k].comment in c0 && c0[a0[k].comment].post != p ==> k in a && a[k] == a0[k])
    && (forall k :: k in a && a[k].comment in c && c[a[k].comment].post != p ==> k in a0 && a[k] == a0[k])
  }

  ghost predicate CommentsPlaced(c0: map<int, CommentRow>, c: map<int, CommentRow>, p: int, existing: set<int>,
                                 inc: seq<CommentData>, updated: seq<int>) {
    && |updated| <= |inc|
    && (forall j :: 0 <= j < |updated| && Matches(inc[j].id, existing) ==> updated[j] == inc[j].id.value)
    && (forall j :: 0 <= j < |updated| && !Matches(inc[j].id, existing) ==>
          && updated[j] !in c0 && updated[j] in c
          && c[updated[j]] == NewCommentRow(p, inc[j])
          && (inc[j].id.Some? ==> updated[j] == inc[j].id.value))
  }

  lemma MergeAllCommentsStep(c0: map<int, CommentRow>, existing: set<int>, inc: seq<CommentData>, i: int)
    requires 0 <= i < |inc| && existing <= c0.Keys
    ensures forall k :: k in existing ==>
      (MergeAllComments(c0[k], inc[..i + 1], k) ==
       var m := MergeAllComments(c0[k], inc[..i], k); if Matches(inc[i].id, {k}) then MergeComment(m, inc[i]) else m)
  {
    forall k | k in existing
      ensures MergeAllComments(c0[k], inc[..i + 1], k) ==
        var m := MergeAllComments(c0[k], inc[..i], k); if Matches(inc[i].id, {k}) then MergeComment(m, inc[i]) else m
    {
      assert inc[..i + 1] == inc[..i] + [inc[i]];
      MergeAllCommentsSnoc(c0[k], inc[..i], inc[i], k);
    }
  }

  /** A pass that updates the existing comment `key` keeps both summaries. */
  lemma CommentsUpdateStep(c0: map<int, CommentRow>, c: map<int, CommentRow>, c': map<int, CommentRow>,
                           a0: map<int, AspectRow>, a: map<int, AspectRow>, a': map<int, AspectRow>,
                           p: int, existing: set<int>, inc: seq<CommentData>, updated: seq<int>, key: int)
    requires |updated| < |inc| && existing <= c0.Keys
    requires forall k :: k in existing ==> c0[k].post == p
    requires CommentsFramed(c0, c, a0, a, p, existing, inc[..|updated|])
    requires CommentsPlaced(c0, c, p, existing, inc, updated)
    requires Matches(inc[|updated|].id, existing) && key == inc[|updated|].id.value
    requires c' == c[key := MergeComment(c[key], inc[|updated|])]
    requires forall k :: k in a && a[k].comment != key ==> k in a' && a'[k] == a[k]
    requires forall k :: k in a' ==> (k in a && a[k].comment != key && a'[k] == a[k]) || a'[k].comment == key
    ensures CommentsFramed(c0, c', a0, a', p, existing, inc[..|updated| + 1])
    ensures CommentsPlaced(c0, c', p, existing, inc, updated + [key])
  {
    MergeAllCommentsStep(c0, existing, inc, |updated|);
  }

  /** A pass that creates comment `key` keeps both summaries. */
  lemma CommentsCreateStep(c0: map<int, CommentRow>, c: map<int, CommentRow>, c': map<int, CommentRow>,
                           a0: map<int, AspectRow>, a: map<int, AspectRow>, a': map<int, AspectRow>,
                           p: int, existing: set<int>, inc: seq<CommentData>, updated: seq<int>, key: int)
    requires |updated| < |inc| && existing <= c0.Keys
    requires CommentsFramed(c0, c, a0, a, p, existing, inc[..|updated|])
    requires CommentsPlaced(c0, c, p, existing, inc, updated)
    requires !Matches(inc[|updated|].id, existing)
    requires key !in c && c' == c[key := NewCommentRow(p, inc[|updated|])]
    requires inc[|updated|].id.Some? ==> key == inc[|updated|].id.value
    requires forall k :: k in a ==> k in a' && a'[k] == a[k]
    requires forall k :: k in a' && k !in a ==> a'[k].comment == key
    ensures CommentsFramed(c0, c', a0, a', p, existing, inc[..|updated| + 1])
    ensures CommentsPlaced(c0, c', p, existing, inc, updated + [key])
  {
    MergeAllCommentsStep(c0, existing, inc, |updated|);
    forall k | k in a' && a'[k].comment in c' && c'[a'[k].comment].post != p
      ensures k in a0 && a'[k] == a0[k]
    {
      assert a'[k].comment != key;
    }
  }

  /** The comments `c` and aspects `a` of a reconciled post `p`, against
      the tables `c0` and `a0` before: the post's comments are exactly
      those under `keys`; an existing comment stays exactly when an entry
      lists it, merged with every entry naming it; every other entry has a
      new comment; other posts' comments and aspects are untouched. */
  ghost predicate Reconciled(c0: map<int, CommentRow>, a0: map<int, AspectRow>,
                             c: map<int, CommentRow>, a: map<int, AspectRow>,
                             p: int, inc: seq<CommentData>, keys: seq<int>) {
    var existing := CommentKeysOf(c0, p);
    && |keys| == |inc|
    && (forall k :: k in c && c[k].post == p <==> k in keys)
    && (forall k :: k in c0 && c0[k].post != p ==> k in c && c[k] == c0[k])
    && (forall k :: k in c ==> k in c0 || c[k].post == p)
    && (forall k :: k in existing ==> (k in c <==> ListedComment(inc, k)))
    && (forall k :: k in existing && k in c ==> c[k] == MergeAllComments(c0[k], inc, k))
    && (forall i :: 0 <= i < |inc| && Matches(inc[i].id, existing) ==> keys[i] == inc[i].id.value)
    && (forall i :: 0 <= i < |inc| && !Matches(inc[i].id, existing) ==>
          && keys[i] !in c0 && keys[i] in c
          && c[keys[i]] == NewCommentRow(p, inc[i])
          && (inc[i].id.Some? ==> keys[i] == inc[i].id.value))
    && (forall k :: k in a0 && a0[k].comment in c0 && c0[a0[k].comment].post != p ==> k in a && a[k] == a0[k])
    && (forall k :: k in a && a[k].comment in c && c[a[k].comment].post != p ==> k in a0 && a[k] == a0[k])
  }

  /** The tables after the loop and the delete, described against the
      tables before the loop. */
  lemma ReconcileResult(c0: map<int, CommentRow>, a0: map<int, AspectRow>,
                        c1: map<int, CommentRow>, a1: map<int, AspectRow>,
                        c: map<int, CommentRow>, a: map<int, AspectRow>,
                        p: int, existing: set<int>, inc: seq<CommentData>, keys: seq<int>)
    requires existing == CommentKeysOf(c0, p) && |keys| == |inc|
    requires forall k :: k in a0 ==> a0[k].comment in c0
    requires forall k :: k in a ==> a[k].comment in c
    requires CommentsFramed(c0, c1, a0, a1, p, existing, inc)
    requires CommentsPlaced(c0, c1, p, existing, inc, keys)
    requires forall k :: k in c <==> k in c1 && (c1[k].post != p || k in keys)
    requires forall k :: k in c ==> c[k] == c1[k]
    requires forall k :: k in a <==> k in a1 && a1[k].comment in c
    requires forall k :: k in a ==> a[k] == a1[k]
    ensures Reconciled(c0, a0, c, a, p, inc, keys)
  {
  }

  /** Whatever the aspect loop has done, rows of other comments are
      untouched and every row is either one of those or a row of `c`. */
  lemma AspectsFramedFrame(a0: map<int, AspectRow>, a: map<int, AspectRow>, c: int, existing: set<int>, seen: seq<AspectData>)
    requires existing == AspectKeysOf(a0, c)
    requires AspectsFramed(a0, a, c, existing, seen)
    ensures forall k :: k in a0 && a0[k].comment != c ==> k in a && a[k] == a0[k]
    ensures forall k :: k in a ==> (k in a0 && a0[k].comment != c && a[k] == a0[k]) || a[k].comment == c
  {
  }

  /** The aspects after the loop and the delete of `CommentSerializer.update`,
      described against the table `a0` before the loop. */
  lemma CommentAspectsResult(a0: map<int, AspectRow>, a1: map<int, AspectRow>, a: map<int, AspectRow>,
                             c: int, existing: set<int>, inc: seq<AspectData>, keys: seq<int>)
    requires existing == AspectKeysOf(a0, c) && |keys| == |inc|
    requires AspectsFramed(a0, a1, c, existing, inc)
    requires AspectsPlaced(a0, a1, c, existing, inc, keys)
    requires forall k :: k in a <==> k in a1 && (a1[k].comment != c || k in keys)
    requires forall k :: k in a ==> a[k] == a1[k]
    ensures forall k :: k in a0 && a0[k].comment != c ==> k in a && a[k] == a0[k]
    ensures forall k :: k in a ==> (k in a0 && a0[k].comment != c && a[k] == a0[k]) || a[k].comment == c
    ensures forall k :: k in a && a[k].comment == c <==> k in keys
    ensures forall k :: k in existing ==> (k in a <==> ListedAspect(inc, k))
    ensures forall k :: k in existing && k in a ==> a[k] == MergeAll(a0[k], inc, k)
    ensures forall i :: 0 <= i < |inc| && Matches(inc[i].id, existing) ==> keys[i] == inc[i].id.value
    ensures forall i :: 0 <= i < |inc| && !Matches(inc[i].id, existing) ==>
      && keys[i] !in a0 && keys[i] in a
      && a[keys[i]] == NewAspectRow(c, inc[i])
      && (inc[i].id.Some? ==> keys[i] == inc[i].id.value)
  {
  }

  /** `after` is `before` with one new aspect of comment `c` per entry of
      `saved`, in order, at the distinct fresh keys `keys`; an entry's
      explicit id is its key. */
  ghost predicate Appended(before: map<int, AspectRow>, after: map<int, AspectRow>, c: int, keys: seq<int>, saved: seq<AspectData>) {
    && |keys| == |saved|
    && (forall k :: k in after <==> k in before || k in keys)
    && (forall k :: k in before ==> after[k] == before[k])
    && (forall j :: 0 <= j < |keys| ==>
          && keys[j] !in before && after[keys[j]] == NewAspectRow(c, saved[j])
          && (saved[j].id.Some? ==> keys[j] == saved[j].id.value))
    && (forall i, j :: 0 <= i < j < |keys| ==> keys[i] != keys[j])
  }

  /** Inserting one more aspect of `c` at a fresh key extends the summary. */
  lemma AppendedStep(before: map<int, AspectRow>, mid: map<int, AspectRow>, c: int, keys: seq<int>, saved: seq<AspectData>,
                     k: int, x: AspectData)
    requires Appended(before, mid, c, keys, saved)
    requires k !in mid && (x.id.Some? ==> k == x.id.value)
    ensures Appended(before, mid[k := NewAspectRow(c, x)], c, keys + [k], saved + [x])
  {
    var after := mid[k := NewAspectRow(c, x)];
    forall j | 0 <= j < |keys|
      ensures keys[j] != k
    {
      assert keys[j] in keys;
    }
  }

  class Database {
    var posts: map<int, PostRow>
    var comments: map<int, CommentRow>
    var aspects: map<int, AspectRow>
    /** Source name to usage count. */
    var sources: map<string, int>
    var nextPost: int
    var nextComment: int
    var nextAspect: int

    /** Every foreign key points at an existing row, and each id sequence
        is above every key of its table. */
    ghost predicate Valid()
      reads this
    {
      && (forall k :: k in aspects ==> aspects[k].comment in comments)
      && (forall k :: k in comments ==> comments[k].post in posts)
      && (forall k :: k in posts && posts[k].source.Some? ==> posts[k].source.value in sources)
      && (forall k :: k in posts ==> k < nextPost)
      && (forall k :: k in comments ==> k < nextComment)
      && (forall k :: k in aspects ==> k < nextAspect)
    }

    constructor ()
      ensures Valid()
      ensures posts == map[] && comments == map[] && aspects == map[] && sources == map[]
    {
      posts, comments, aspects, sources := map[], map[], map[], map[];
      nextPost, nextComment, nextAspect := 1, 1, 1;
    }

    /** `Aspect.objects.create(comment=..., **data)`: an explicit id is used
        as the key when it is free and raises an integrity error when it is
        taken; without one the sequence hands out the key. */
    method InsertAspect(comment: int, d: AspectData) returns (ok: bool, key: int)
      requires Valid() && comment in comments
      modifies this
      ensures Valid()
      ensures ok <==> d.id.None? || d.id.value !in old(aspects)
      ensures ok ==> key !in old(aspects) && aspects == old(aspects)[key := NewAspectRow(comment, d)]
      ensures ok && d.id.Some? ==> key == d.id.value
      ensures !ok ==> aspects == old(aspects)
      ensures posts == old(posts) && comments == old(comments) && sources == old(sources)
      ensures nextPost == old(nextPost) && nextComment == old(nextComment)
    {
      if d.id.Some? {
        if d.id.value in aspects {
          return false, d.id.value;
        }
        key := d.id.value;
      } else {
        key := nextAspect;
      }
      aspects := aspects[key := NewAspectRow(comment, d)];
      if key >= nextAspect {
        nextAspect := key + 1;
      }
      ok := true;
    }

    /** `Comment.objects.create(post=..., **data)` without the aspects. */
    method InsertComment(post: int, d: CommentData) returns (ok: bool, key: int)
      requires Valid() && post in posts
      modifies this
      ensures Valid()
      ensures ok <==> d.id.None? || d.id.value !in old(comments)
      ensures ok ==> key !in old(comments) && comments == old(comments)[key := NewCommentRow(post, d)]
      ensures ok && d.id.Some? ==> key == d.id.value
      ensures !ok ==> comments == old(comments)
      ensures posts == old(posts) && aspects == old(aspects) && sources == old(sources)
      ensures nextPost == old(nextPost) && nextAspect == old(nextAspect)
    {
      if d.id.Some? {
        if d.id.value in comments {
          return false, d.id.value;
        }
        key := d.id.value;
      } else {
        key := nextComment;
      }
      comments := comments[key := NewCommentRow(post, d)];
      if key >= nextComment {
        nextComment := key + 1;
      }
      ok := true;
    }

    /** Saving a new post: the sequence hands out the key; the user, the
        source and the review fields are empty and the status is the
        default. */
    method InsertPost(caption: string) returns (key: int)
      requires Valid()
      modifies this
      ensures Valid()
      ensures key !in old(posts) && posts == old(posts)[key := PostRow(caption, None, None, DefaultStatus, None, None)]
      ensures comments == old(comments) && aspects == old(aspects) && sources == old(sources)
      ensures nextComment == old(nextComment) && nextAspect == old(nextAspect)
    {
      key := nextPost;
      posts := posts[key := PostRow(caption, None, None, DefaultStatus, None, None)];
      nextPost := key + 1;
    }

    /** `AspectSerializer.update`. */
    method UpdateAspect(key: int, d: AspectData)
      requires Valid() && key in aspects
      modifies this
      ensures Valid()
      ensures aspects == old(aspects)[key := MergeAspect(old(aspects)[key], d)]
      ensures posts == old(posts) && comments == old(comments) && sources == old(sources)
      ensures nextPost == old(nextPost) && nextComment == old(nextComment) && nextAspect == old(nextAspect)
    {
      aspects := aspects[key := MergeAspect(aspects[key], d)];
    }

    /** The loop of `CommentSerializer.update` over the incoming aspects:
        an entry whose id is one of `existing` updates that aspect, any
        other entry creates an aspect of comment `c`. `updated[j]` is the
        key entry j went to. Stops at the first integrity error. */
    method MergeAspects(c: int, inc: seq<AspectData>, existing: set<int>) returns (ok: bool, updated: seq<int>)
      requires Valid() && c in comments && existing == AspectKeysOf(aspects, c)
      modifies this
      ensures Valid()
      ensures posts == old(posts) && sources == old(sources) && comments == old(comments)
      ensures nextPost == old(nextPost) && nextComment == old(nextComment)
      ensures |updated| <= |inc| && (ok ==> |updated| == |inc|)
      ensures (forall i :: 0 <= i < |inc| ==> inc[i].id.None? || Matches(inc[i].id, existing)) ==> ok
      ensures !ok ==> exists i :: 0 <= i < |inc| && inc[i].id.Some? && !Matches(inc[i].id, existing)
      ensures !ok ==>
        && |updated| < |inc| && inc[|updated|].id.Some? && !Matches(inc[|updated|].id, existing)
        && inc[|updated|].id.value in aspects
      ensures AspectsFramed(old(aspects), aspects, c, existing, inc[..|updated|])
      ensures AspectsPlaced(old(aspects), aspects, c, existing, inc, updated)
    {
      updated := [];
      var i := 0;
      while i < |inc|
        invariant 0 <= i <= |inc| && |updated| == i
        invariant Valid()
        invariant posts == old(posts) && sources == old(sources) && comments == old(comments)
        invariant nextPost == old(nextPost) && nextComment == old(nextComment)
        invariant existing <= old(aspects).Keys
        invariant AspectsFramed(old(aspects), aspects, c, existing, inc[..i])
        invariant AspectsPlaced(old(aspects), aspects, c, existing, inc, updated)
      {
        var before := aspects;
        assert forall k :: k in old(aspects) ==> k in aspects;
        assert existing <= aspects.Keys;
        var placed, key := MergeOne(c, existing, inc[i]);
        if !placed {
          return false, updated;
        }
        AspectsStep(old(aspects), before, aspects, c, existing, inc, updated, key);
        updated := updated + [key];
        i := i + 1;
      }
      ok := true;
    }

    /** One pass of that loop: update the aspect the entry names, or create one. */
    method MergeOne(c: int, existing: set<int>, a: AspectData) returns (ok: bool, key: int)
      requires Valid() && c in comments && existing <= aspects.Keys
      modifies this
      ensures Valid()
      ensures posts == old(posts) && sources == old(sources) && comments == old(comments)
      ensures nextPost == old(nextPost) && nextComment == old(nextComment)
      ensures Matches(a.id, existing) ==>
        ok && key == a.id.value && aspects == old(aspects)[key := MergeAspect(old(aspects)[key], a)]
      ensures !Matches(a.id, existing) ==>
        && (ok <==> a.id.None? || a.id.value !in old(aspects))
        && (ok ==> key !in old(aspects) && aspects == old(aspects)[key := NewAspectRow(c, a)])
        && (ok && a.id.Some? ==> key == a.id.value)
        && (!ok ==> aspects == old(aspects))
    {
      if Matches(a.id, existing) {
        UpdateAspect(a.id.value, a);
        ok, key := true, a.id.value;
      } else {
        ok, key := InsertAspect(c, a);
      }
    }

    /** `CommentSerializer.update` of comment `c`: `keys[i]` is the key the
        i-th incoming aspect is kept or created under. The comment row is
        saved before the aspects are touched; after an integrity error the
        caller rolls everything back. */
    method UpdateComment(c: int, d: CommentData) returns (ok: bool, keys: seq<int>)
      requires Valid() && c in comments
      modifies this
      ensures Valid()
      ensures posts == old(posts) && sources == old(sources)
      ensures nextPost == old(nextPost) && nextComment == old(nextComment)
      ensures comments == old(comments)[c := MergeComment(old(comments)[c], d)]
      ensures forall k :: k in old(aspects) && old(aspects)[k].comment != c ==> k in aspects && aspects[k] == old(aspects)[k]
      ensures forall k :: k in aspects ==>
        (k in old(aspects) && old(aspects)[k].comment != c && aspects[k] == old(aspects)[k]) || aspects[k].comment == c
      ensures var inc := AspectsOf(d); var existing := AspectKeysOf(old(aspects), c);
        && ((forall i :: 0 <= i < |inc| ==> inc[i].id.None? || Matches(inc[i].id, existing)) ==> ok)
        && (!ok ==> exists i :: 0 <= i < |inc| && inc[i].id.Some? && !Matches(inc[i].id, existing))
      ensures var inc := AspectsOf(d); var existing := AspectKeysOf(old(aspects), c);
        ok ==>
          && |keys| == |inc|
          && (forall k :: k in aspects && aspects[k].comment == c <==> k in keys)
          && (forall k :: k in existing ==> (k in aspects <==> ListedAspect(inc, k)))
          && (forall k :: k in existing && k in aspects ==> aspects[k] == MergeAll(old(aspects)[k], inc, k))
          && (forall i :: 0 <= i < |inc| && Matches(inc[i].id, existing) ==> keys[i] == inc[i].id.value)
          && (forall i :: 0 <= i < |inc| && !Matches(inc[i].id, existing) ==>
                && keys[i] !in old(aspects) && keys[i] in aspects
                && aspects[keys[i]] == NewAspectRow(c, inc[i])
                && (inc[i].id.Some? ==> keys[i] == inc[i].id.value))
    {
      var inc := AspectsOf(d);
      comments := comments[c := MergeComment(comments[c], d)];
      var existing := AspectKeysOf(aspects, c);
      var updated;
      ok, updated := MergeAspects(c, inc, existing);
      AspectsFramedFrame(old(aspects), aspects, c, existing, inc[..|updated|]);
      if !ok {
        return false, updated;
      }
      assert inc[..|updated|] == inc;
      var a1 := aspects;
      aspects := map k | k in aspects && (aspects[k].comment != c || k in updated) :: aspects[k];
      CommentAspectsResult(old(aspects), a1, aspects, c, existing, inc, updated);
      keys := updated;
    }

    /** A new comment of post `post` with all of its incoming aspects:
        `Comment.objects.create` without the aspects, then
        `Aspect.objects.create` for each. `aspectKeys[i]` is the key of the
        i-th aspect. */
    method CreateComment(post: int, d: CommentData) returns (ok: bool, key: int, aspectKeys: seq<int>)
      requires Valid() && post in posts
      modifies this
      ensures Valid()
      ensures posts == old(posts) && sources == old(sources) && nextPost == old(nextPost)
      ensures forall k :: k in old(comments) ==> k in comments && comments[k] == old(comments)[k]
      ensures forall k :: k in comments ==> k in old(comments) || comments[k].post == post
      ensures forall k :: k in old(aspects) ==> k in aspects && aspects[k] == old(aspects)[k]
      ensures forall k :: k in aspects && k !in old(aspects) ==> aspects[k].comment in comments && aspects[k].comment !in old(comments)
      ensures (d.id.None? || d.id.value !in old(comments)) && (forall i :: 0 <= i < |AspectsOf(d)| ==> AspectsOf(d)[i].id.None?) ==> ok
      ensures !ok ==> d.id.Some? || exists i :: 0 <= i < |AspectsOf(d)| && AspectsOf(d)[i].id.Some?
      ensures ok ==>
        && key !in old(comments) && comments == old(comments)[key := NewCommentRow(post, d)]
        && (d.id.Some? ==> key == d.id.value)
        && Appended(old(aspects), aspects, key, aspectKeys, AspectsOf(d))
    {
      aspectKeys := [];
      ok, key := InsertComment(post, d);
      if !ok {
        return;
      }
      var inc := AspectsOf(d);
      for i := 0 to |inc|
        invariant Valid() && key in comments
        invariant posts == old(posts) && sources == old(sources) && nextPost == old(nextPost)
        invariant key !in old(comments) && comments == old(comments)[key := NewCommentRow(post, d)]
        invariant Appended(old(aspects), aspects, key, aspectKeys, inc[..i])
      {
        assert inc[..i + 1] == inc[..i] + [inc[i]];
        ghost var mid := aspects;
        var created, k := InsertAspect(key, inc[i]);
        if !created {
          ok := false;
          return;
        }
        AppendedStep(old(aspects), mid, key, aspectKeys, inc[..i], k, inc[i]);
        aspectKeys := aspectKeys + [k];
      }
      assert inc[..|inc|] == inc;
    }

    /** `instance.comments.exclude(id__in=keep).delete()`: the comments of
        post `p` that `keep` does not list go, and with them, by the
        cascade, their aspects. */
    method DeleteUnlisted(p: int, keep: seq<int>)
      requires Valid()
      modifies this
      ensures Valid()
      ensures posts == old(posts) && sources == old(sources)
      ensures nextPost == old(nextPost) && nextComment == old(nextComment) && nextAspect == old(nextAspect)
      ensures forall k :: k in comments <==> k in old(comments) && (old(comments)[k].post != p || k in keep)
      ensures forall k :: k in comments ==> comments[k] == old(comments)[k]
      ensures forall k :: k in aspects <==> k in old(aspects) && old(aspects)[k].comment in comments
      ensures forall k :: k in aspects ==> aspects[k] == old(aspects)[k]
    {
      comments := map k | k in comments && (comments[k].post != p || k in keep) :: comments[k];
      aspects := map k | k in aspects && aspects[k].comment in comments :: aspects[k];
    }

    /** `PostSerializer.update` of post `p`, in one transaction. The source,
        when given, is upper-cased and counted; a source seen for the first
        time starts at `initialUsage`. Then the caption, then the comments
        reconciled by id as `CommentSerializer.update` does for aspects.
        `keys[i]` is the key the i-th incoming comment is kept or created
        under. An integrity error anywhere rolls the whole update back. */
    method UpdatePost(p: int, d: PostData, initialUsage: int) returns (ok: bool, keys: seq<int>)
      requires Valid() && p in posts
      modifies this
      ensures Valid()
      ensures !ok ==> posts == old(posts) && comments == old(comments) && aspects == old(aspects) && sources == old(sources)
      ensures NoIds(CommentsOf(d)) ==> ok
      ensures ok ==> posts == old(posts)[p := PostAfter(old(posts)[p], d)]
      ensures ok ==> sources == SourcesAfter(old(sources), d.source, initialUsage)
      ensures ok ==> Reconciled(old(comments), old(aspects), comments, aspects, p, CommentsOf(d), keys)
    {
      var posts0, comments0, aspects0, sources0 := posts, comments, aspects, sources;
      var counters0 := (nextPost, nextComment, nextAspect);
      SavePostFields(p, d, initialUsage);
      ok, keys := ReplaceComments(p, CommentsOf(d));
      if !ok {
        posts, comments, aspects, sources := posts0, comments0, aspects0, sources0;
        nextPost, nextComment, nextAspect := counters0.0, counters0.1, counters0.2;
      }
    }

    /** The first half of `PostSerializer.update`: the source is counted
        and set, then the caption. */
    method SavePostFields(p: int, d: PostData, initialUsage: int)
      requires Valid() && p in posts
      modifies this
      ensures Valid()
      ensures posts == old(posts)[p := PostAfter(old(posts)[p], d)]
      ensures sources == SourcesAfter(old(sources), d.source, initialUsage)
      ensures comments == old(comments) && aspects == old(aspects)
      ensures nextPost == old(nextPost) && nextComment == old(nextComment) && nextAspect == old(nextAspect)
    {
      sources := SourcesAfter(sources, d.source, initialUsage);
      posts := posts[p := PostAfter(posts[p], d)];
    }

    /** The second half: the comment loop, then the delete of the
        comments no entry kept. */
    method ReplaceComments(p: int, inc: seq<CommentData>) returns (ok: bool, keys: seq<int>)
      requires Valid() && p in posts
      modifies this
      ensures Valid()
      ensures posts == old(posts) && sources == old(sources)
      ensures NoIds(inc) ==> ok
      ensures ok ==> Reconciled(old(comments), old(aspects), comments, aspects, p, inc, keys)
    {
      var existing := CommentKeysOf(comments, p);
      var comments1, aspects1 := comments, aspects;
      ok, keys := ReconcileComments(p, inc, existing);
      if !ok {
        return;
      }
      var comments2, aspects2 := comments, aspects;
      DeleteUnlisted(p, keys);
      ReconcileResult(comments1, aspects1, comments2, aspects2, comments, aspects, p, existing, inc, keys);
    }

    /** The loop of `PostSerializer.update` over the incoming comments,
        stopping at the first integrity error. */
    method ReconcileComments(p: int, inc: seq<CommentData>, existing: set<int>) returns (ok: bool, updated: seq<int>)
      requires Valid() && p in posts && existing == CommentKeysOf(comments, p)
      modifies this
      ensures Valid()
      ensures posts == old(posts) && sources == old(sources)
      ensures NoIds(inc) ==> ok
      ensures ok ==> |updated| == |inc|
      ensures ok ==> CommentsFramed(old(comments), comments, old(aspects), aspects, p, existing, inc)
      ensures ok ==> CommentsPlaced(old(comments), comments, p, existing, inc, updated)
    {
      updated := [];
      var i := 0;
      while i < |inc|
        invariant 0 <= i <= |inc| && |updated| == i
        invariant Valid()
        invariant posts == old(posts) && sources == old(sources)
        invariant existing <= old(comments).Keys
        invariant forall k :: k in existing ==> old(comments)[k].post == p
        invariant CommentsFramed(old(comments), comments, old(aspects), aspects, p, existing, inc[..i])
        invariant CommentsPlaced(old(comments), comments, p, existing, inc, updated)
      {
        var e := inc[i];
        var comments1, aspects1 := comments, aspects;
        if Matches(e.id, existing) {
          assert forall k :: k in old(comments) ==> k in comments;
          var done, _ := UpdateComment(e.id.value, e);
          if !done {
            return false, updated;
          }
          CommentsUpdateStep(old(comments), comments1, comments, old(aspects), aspects1, aspects, p, existing, inc, updated, e.id.value);
          updated := updated + [e.id.value];
        } else {
          var done, key, _ := CreateComment(p, e);
          if !done {
            return false, updated;
          }
          CommentsCreateStep(old(comments), comments1, comments, old(aspects), aspects1, aspects, p, existing, inc, updated, key);
          updated := updated + [key];
        }
        i := i + 1;
      }
      assert inc[..i] == inc;
      ok := true;
    }
  }
}
