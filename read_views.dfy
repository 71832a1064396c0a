/** The read-only endpoints over the requesting user's posts: the CSV
    export and the dashboard statistics. Both read the posts as the query
    returns them, each with its comments and each comment with its aspects
    in key order; days are whole numbers. */
module ReadViews {
  import opened Wrappers
  import opened Choices
  import opened Dicts

  datatype AspectView = AspectView(aspectName: string, sentiment: Option<Sentiment>)

  datatype CommentView = CommentView(text: string, generalSentiment: Option<Sentiment>, aspects: seq<AspectView>)

  datatype PostView = PostView(
    id: int,
    source: Option<string>,
    caption: string,
    collector: string,
    createdDay: int,
    comments: seq<CommentView>)

  // ----- CSV export -----

  const Header: seq<string> := ["post_id", "source", "caption", "comment", "aspects_and_sentiments",
                                "general_sentiment", "collector", "created_at"]

  /** One data row; the aspects column is the dict before JSON encoding. */
  datatype CsvRow = CsvRow(
    postId: int,
    source: Option<string>,
    caption: string,
    comment: string,
    aspects: seq<(string, Option<Sentiment>)>,
    generalSentiment: Option<Sentiment>,
    collector: string,
    createdDay: int)

  /** `{aspect.aspect_name: aspect.sentiment for aspect in aspects}`. */
  function AspectsDict(a: seq<AspectView>): seq<(string, Option<Sentiment>)>
    decreases |a|
  {
    if |a| == 0 then []
    else Put(AspectsDict(a[..|a| - 1]), a[|a| - 1].aspectName, a[|a| - 1].sentiment)
  }

  /** Reference reading: the sentiment of the last aspect with that name. */
  function LastSentiment(a: seq<AspectView>, name: string): (r: Option<Option<Sentiment>>)
    ensures r.None? <==> forall i :: 0 <= i < |a| ==> a[i].aspectName != name
    ensures r.Some? ==> exists i :: 0 <= i < |a| && a[i].aspectName == name && r.value == a[i].sentiment
    decreases |a|
  {
    if |a| == 0 then None
    else if a[|a| - 1].aspectName == name then Some(a[|a| - 1].sentiment)
    else LastSentiment(a[..|a| - 1], name)
  }

  /** The aspects column maps each name to the sentiment of its last
      aspect: a later duplicate name overwrites an earlier one; and each
      name appears once. */
  lemma {:induction false} AspectsDictLast(a: seq<AspectView>, name: string)
    ensures Lookup(AspectsDict(a), name) == LastSentiment(a, name)
    ensures DistinctKeys(AspectsDict(a))
    decreases |a|
  {
    if |a| > 0 {
      var last := a[|a| - 1];
      AspectsDictLast(a[..|a| - 1], name);
      PutLookup(AspectsDict(a[..|a| - 1]), last.aspectName, last.sentiment, name);
      PutPlace(AspectsDict(a[..|a| - 1]), last.aspectName, last.sentiment);
    }
  }

  function RowFor(p: PostView, c: CommentView): CsvRow {
    CsvRow(p.id, p.source, p.caption, c.text, AspectsDict(c.aspects), c.generalSentiment, p.collector, p.createdDay)
  }

  /** The rows of one post: one per comment, in order. */
  function CommentRows(p: PostView, cs: seq<CommentView>): (r: seq<CsvRow>)
    ensures |r| == |cs|
    ensures forall j :: 0 <= j < |cs| ==> r[j] == RowFor(p, cs[j])
    decreases |cs|
  {
    if |cs| == 0 then [] else CommentRows(p, cs[..|cs| - 1]) + [RowFor(p, cs[|cs| - 1])]
  }

  /** The data rows of the export. */
  function Rows(posts: seq<PostView>): seq<CsvRow>
    decreases |posts|
  {
    if |posts| == 0 then []
    else Rows(posts[..|posts| - 1]) + CommentRows(posts[|posts| - 1], posts[|posts| - 1].comments)
  }

  function CommentCount(posts: seq<PostView>): nat
    decreases |posts|
  {
    if |posts| == 0 then 0 else CommentCount(posts[..|posts| - 1]) + |posts[|posts| - 1].comments|
  }

  /** Exactly one data row per comment. */
  lemma {:induction false} RowsCount(posts: seq<PostView>)
    ensures |Rows(posts)| == CommentCount(posts)
    decreases |posts|
  {
    if |posts| > 0 {
      RowsCount(posts[..|posts| - 1]);
    }
  }

  lemma {:induction false} CountPrefix(posts: seq<PostView>, i: int)
    requires 0 <= i <= |posts|
    ensures CommentCount(posts[..i]) <= CommentCount(posts)
    decreases |posts|
  {
    if i < |posts| {
      assert posts[..|posts| - 1][..i] == posts[..i];
      CountPrefix(posts[..|posts| - 1], i);
    } else {
      assert posts[..i] == posts;
    }
  }

  /** Comment j of post i is written on data row `CommentCount(posts[..i]) + j`,
      with that post's columns and that comment's columns. */
  lemma {:induction false} RowsAt(posts: seq<PostView>, i: int, j: int)
    requires 0 <= i < |posts| && 0 <= j < |posts[i].comments|
    ensures CommentCount(posts[..i]) + j < |Rows(posts)|
    ensures Rows(posts)[CommentCount(posts[..i]) + j] == RowFor(posts[i], posts[i].comments[j])
    decreases |posts|
  {
    var pre := posts[..|posts| - 1];
    RowsCount(pre);
    RowsCount(posts);
    if i == |posts| - 1 {
      assert posts[..i] == pre;
    } else {
      assert pre[..i] == posts[..i] && pre[i] == posts[i];
      assert pre[..i + 1] == posts[..i + 1];
      assert CommentCount(posts[..i + 1]) == CommentCount(posts[..i]) + |posts[i].comments| by {
        assert posts[..i + 1][..i] == posts[..i];
      }
      CountPrefix(pre, i + 1);
      RowsAt(pre, i, j);
    }
  }

  /** `export_csv`: the header, then for each post each of its comments. */
  method ExportCsv(posts: seq<PostView>) returns (header: seq<string>, rows: seq<CsvRow>)
    ensures header == Header && |header| == 8
    ensures rows == Rows(posts)
  {
    header := Header;
    rows := [];
    for i := 0 to |posts|
      invariant rows == Rows(posts[..i])
    {
      var post := posts[i];
      for j := 0 to |post.comments|
        invariant rows == Rows(posts[..i]) + CommentRows(post, post.comments[..j])
      {
        assert post.comments[..j + 1][..j] == post.comments[..j];
        rows := rows + [RowFor(post, post.comments[j])];
      }
      assert post.comments[..|post.comments|] == post.comments;
      assert posts[..i + 1][..i] == posts[..i];
    }
    assert posts[..|posts|] == posts;
  }

  // ----- dashboard -----

  function CountDay(posts: seq<PostView>, day: int): nat
    decreases |posts|
  {
    if |posts| == 0 then 0
    else CountDay(posts[..|posts| - 1], day) + (if posts[|posts| - 1].createdDay == day then 1 else 0)
  }

  /** The distinct sources of the posts. */
  function SourceNames(posts: seq<PostView>): set<string> {
    set i | 0 <= i < |posts| && posts[i].source.Some? :: posts[i].source.value
  }

  /** What the daily-count query returns for the days from `start` on:
      one entry per day that has posts, with that day's count, by day.
      A day without posts has no entry. */
  ghost predicate DailyCountsOf(posts: seq<PostView>, start: int, daily: seq<(int, int)>) {
    && Ascending(daily)
    && (forall i :: 0 <= i < |daily| ==> daily[i].0 >= start && daily[i].1 == CountDay(posts, daily[i].0) && daily[i].1 > 0)
    && (forall d :: d >= start && CountDay(posts, d) > 0 ==> exists i :: 0 <= i < |daily| && daily[i].0 == d)
  }

  /** The seven days from `start`, each with count 0. */
  function Window(start: int): (r: seq<(int, int)>)
    ensures |r| == 7 && forall i :: 0 <= i < 7 ==> r[i] == (start + i, 0)
  {
    seq(7, i => (start + i, 0))
  }

  /** The entries of `daily` after the day `bound`, in order. */
  function Late(daily: seq<(int, int)>, bound: int): seq<(int, int)>
    decreases |daily|
  {
    if |daily| == 0 then []
    else Late(daily[..|daily| - 1], bound) + (if daily[|daily| - 1].0 > bound then [daily[|daily| - 1]] else [])
  }

  predicate Ascending(d: seq<(int, int)>) {
    forall i, j :: 0 <= i < j < |d| ==> d[i].0 < d[j].0
  }

  /** The shape of the filled list for the query entries `daily`. */
  ghost predicate Filled(start: int, daily: seq<(int, int)>, r: seq<(int, int)>) {
    && |r| == 7 + |Late(daily, start + 6)|
    && (forall i :: 0 <= i < 7 ==> r[i] == (start + i, Lookup(daily, start + i).GetOr(0)))
    && r[7..] == Late(daily, start + 6)
    && Ascending(r)
  }

  /** Filling the window with the query's entries: the window keeps its
      seven days in place with the query's count or 0, any entry after the
      window is appended, and the days stay in increasing order. */
  lemma {:induction false} FilledDates(start: int, daily: seq<(int, int)>)
    requires Ascending(daily)
    requires forall i :: 0 <= i < |daily| ==> daily[i].0 >= start
    ensures var r := PutAll(Window(start), daily);
      && |r| == 7 + |Late(daily, start + 6)|
      && (forall i :: 0 <= i < 7 ==> r[i] == (start + i, Lookup(daily, start + i).GetOr(0)))
      && r[7..] == Late(daily, start + 6)
      && Ascending(r)
    decreases |daily|
  {
    if |daily| > 0 {
      var pre := daily[..|daily| - 1];
      var e := daily[|daily| - 1];
      assert daily == pre + [e];
      FilledDates(start, pre);
      var r0 := PutAll(Window(start), pre);
      LateBelow(pre, start + 6, e.0);
      if e.0 <= start + 6 {
        FilledInWindow(start, pre, e, r0);
      } else {
        FilledAfterWindow(start, pre, e, r0);
      }
    }
  }

  /** An entry inside the window replaces that day's zero. */
  lemma FilledInWindow(start: int, pre: seq<(int, int)>, e: (int, int), r0: seq<(int, int)>)
    requires forall i :: 0 <= i < |pre| ==> pre[i].0 < e.0
    requires start <= e.0 <= start + 6
    requires Filled(start, pre, r0)
    ensures Filled(start, pre + [e], Put(r0, e.0, e.1))
  {
    PutPlace(r0, e.0, e.1);
    assert r0[e.0 - start].0 == e.0;
    var r := Put(r0, e.0, e.1);
    assert r == r0[e.0 - start := e];
    assert (pre + [e])[..|pre|] == pre;
    assert Late(pre + [e], start + 6) == Late(pre, start + 6);
    LookupNone(pre, e.0);
    forall d | start <= d < start + 7
      ensures Lookup(pre + [e], d) == (if d == e.0 then Some(e.1) else Lookup(pre, d))
    {
      LookupSnoc(pre, e, d);
    }
  }

  /** An entry after the window is appended. */
  lemma FilledAfterWindow(start: int, pre: seq<(int, int)>, e: (int, int), r0: seq<(int, int)>)
    requires forall i :: 0 <= i < |pre| ==> pre[i].0 < e.0
    requires e.0 > start + 6
    requires forall x :: x in Late(pre, start + 6) ==> x.0 < e.0
    requires Filled(start, pre, r0)
    ensures Filled(start, pre + [e], Put(r0, e.0, e.1))
  {
    var late0 := Late(pre, start + 6);
    forall i | 0 <= i < |r0|
      ensures r0[i].0 < e.0
    {
      if i >= 7 {
        assert r0[i] == r0[7..][i - 7];
        assert r0[i] in late0;
      }
    }
    PutPlace(r0, e.0, e.1);
    assert Put(r0, e.0, e.1) == r0 + [e];
    assert (pre + [e])[..|pre|] == pre;
    assert Late(pre + [e], start + 6) == late0 + [e];
    forall d | start <= d < start + 7
      ensures Lookup(pre + [e], d) == Lookup(pre, d)
    {
      LookupSnoc(pre, e, d);
    }
  }

  /** Every entry kept by `Late` comes from `daily`, so it lies before any
      day later than all of `daily`. */
  lemma {:induction false} LateBelow(daily: seq<(int, int)>, bound: int, day: int)
    requires forall i :: 0 <= i < |daily| ==> daily[i].0 < day
    ensures forall i :: 0 <= i < |Late(daily, bound)| ==> bound < Late(daily, bound)[i].0 < day
    decreases |daily|
  {
    if |daily| > 0 {
      LateBelow(daily[..|daily| - 1], bound, day);
    }
  }

  /** The dashboard's date filling. */
  method FillDates(start: int, daily: seq<(int, int)>) returns (r: seq<(int, int)>)
    ensures r == PutAll(Window(start), daily)
  {
    r := Window(start);
    for i := 0 to |daily|
      invariant r == PutAll(Window(start), daily[..i])
    {
      assert daily[..i + 1][..i] == daily[..i];
      r := Put(r, daily[i].0, daily[i].1);
    }
    assert daily[..|daily|] == daily;
  }

  datatype Stats = Stats(totalPosts: int, totalComments: int, sourcesCount: int, lastSevenDays: seq<(int, int)>)

  /** `dashboard_stats` on day `today`: `daily` is what the daily-count
      query returns for the days from `today - 6` on. */
  method DashboardStats(posts: seq<PostView>, today: int, daily: seq<(int, int)>) returns (s: Stats)
    requires DailyCountsOf(posts, today - 6, daily)
    ensures s.totalPosts == |posts| && s.totalComments == CommentCount(posts)
    ensures s.sourcesCount == |SourceNames(posts)|
    ensures s.lastSevenDays == PutAll(Window(today - 6), daily)
  {
    var filled := FillDates(today - 6, daily);
    s := Stats(|posts|, CommentCount(posts), |SourceNames(posts)|, filled);
  }

  /** When no post is dated after today, the last-seven-days list holds
      exactly the seven days up to today, in order, each with its number of
      posts, 0 for a day without posts. */
  lemma LastSevenDays(posts: seq<PostView>, today: int, daily: seq<(int, int)>)
    requires DailyCountsOf(posts, today - 6, daily)
    requires forall k :: 0 <= k < |posts| ==> posts[k].createdDay <= today
    ensures var r := PutAll(Window(today - 6), daily);
      && |r| == 7
      && forall i :: 0 <= i < 7 ==> r[i] == (today - 6 + i, CountDay(posts, today - 6 + i))
  {
    FilledDates(today - 6, daily);
    NoLateDays(posts, today - 6, daily);
    forall d | today - 6 <= d < today + 1
      ensures Lookup(daily, d).GetOr(0) == CountDay(posts, d)
    {
      if CountDay(posts, d) > 0 {
        var t :| 0 <= t < |daily| && daily[t].0 == d;
        LookupAt(daily, t);
      } else {
        if Lookup(daily, d).Some? {
          LookupFound(daily, d);
        }
      }
    }
  }

  lemma {:induction false} LookupFound(daily: seq<(int, int)>, d: int)
    requires Lookup(daily, d).Some?
    ensures exists t :: 0 <= t < |daily| && daily[t] == (d, Lookup(daily, d).value)
    decreases |daily|
  {
    if daily[0].0 != d {
      LookupFound(daily[1..], d);
      var t :| 0 <= t < |daily[1..]| && daily[1..][t] == (d, Lookup(daily[1..], d).value);
      assert daily[t + 1] == daily[1..][t];
    }
  }

  /** No entry of the query lies after today when no post does. */
  lemma NoLateDays(posts: seq<PostView>, start: int, daily: seq<(int, int)>)
    requires DailyCountsOf(posts, start, daily)
    requires forall k :: 0 <= k < |posts| ==> posts[k].createdDay <= start + 6
    ensures Late(daily, start + 6) == []
  {
    forall i | 0 <= i < |daily|
      ensures daily[i].0 <= start + 6
    {
      if daily[i].0 > start + 6 {
        CountDayZero(posts, daily[i].0);
      }
    }
    LateEmpty(daily, start + 6);
  }

  lemma {:induction false} CountDayZero(posts: seq<PostView>, day: int)
    requires forall k :: 0 <= k < |posts| ==> posts[k].createdDay != day
    ensures CountDay(posts, day) == 0
    decreases |posts|
  {
    if |posts| > 0 {
      CountDayZero(posts[..|posts| - 1], day);
    }
  }

  lemma {:induction false} LateEmpty(daily: seq<(int, int)>, bound: int)
    requires forall i :: 0 <= i < |daily| ==> daily[i].0 <= bound
    ensures Late(daily, bound) == []
    decreases |daily|
  {
    if |daily| > 0 {
      LateEmpty(daily[..|daily| - 1], bound);
    }
  }
}
