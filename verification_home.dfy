/** The list of posts waiting for review: unreviewed posts first, then the
    reviewed ones, ten to a page, with a button that opens a post for review
    and a handler that moves a reviewed post from one list to the other. */
module VerificationHome {
  import opened Wrappers
  import opened Choices
  import opened ApiTypes
  import JsArrays
  import VerificationContext

  const ItemsPerPage: int := 10

  /** The longest caption shown before it is cut. */
  const DefaultTruncateLength: int := 100

  function StartIndex(page: int): int {
    (page - 1) * ItemsPerPage
  }

  function EndIndex(page: int): int {
    StartIndex(page) + ItemsPerPage
  }

  function Min(a: int, b: int): int {
    if a <= b then a else b
  }

  function Max(a: int, b: int): int {
    if a >= b then a else b
  }

  /** `Math.ceil(n / ItemsPerPage)`. */
  function TotalPages(n: nat): (r: nat)
    ensures r * ItemsPerPage >= n
    ensures r > 0 ==> (r - 1) * ItemsPerPage < n
    ensures r == 0 <==> n == 0
  {
    (n + ItemsPerPage - 1) / ItemsPerPage
  }

  /** The posts on one page of the combined list. */
  function PageOf<T>(all: seq<T>, page: int): seq<T> {
    JsArrays.Slice(all, StartIndex(page), EndIndex(page))
  }

  /** Each existing page holds between one and ten posts: the posts from
      the page's start index up to its end index, cut at the length. */
  lemma PageContents<T>(all: seq<T>, page: int)
    requires 1 <= page <= TotalPages(|all|)
    ensures PageOf(all, page) == all[StartIndex(page)..Min(EndIndex(page), |all|)]
    ensures 1 <= |PageOf(all, page)| <= ItemsPerPage
  {
    JsArrays.SliceNonNegative(all, StartIndex(page), EndIndex(page));
  }

  /** Pages 1 to k, one after another. */
  function Pages<T>(all: seq<T>, k: nat): seq<T> {
    if k == 0 then [] else Pages(all, k - 1) + PageOf(all, k)
  }

  /** The first k pages are the first 10k posts; so all the pages together
      list every post exactly once, in order. */
  lemma {:induction false} PagesCover<T>(all: seq<T>, k: nat)
    ensures Pages(all, k) == all[..Min(k * ItemsPerPage, |all|)]
  {
    if k > 0 {
      PagesCover(all, k - 1);
      JsArrays.SliceNonNegative(all, StartIndex(k), EndIndex(k));
      var a := Min((k - 1) * ItemsPerPage, |all|);
      var b := Min(k * ItemsPerPage, |all|);
      assert all[..a] + all[a..b] == all[..b];
    }
  }

  lemma PagesCoverAll<T>(all: seq<T>)
    ensures Pages(all, TotalPages(|all|)) == all
  {
    PagesCover(all, TotalPages(|all|));
  }

  /** The numbers of the "Showing x to y of n" line. */
  function ShowingFrom(page: int): int {
    StartIndex(page) + 1
  }

  function ShowingTo(page: int, n: nat): int {
    Min(EndIndex(page), n)
  }

  /** On an existing page the "Showing" line counts exactly the posts listed. */
  lemma ShowingMatchesPage<T>(all: seq<T>, page: int)
    requires 1 <= page <= TotalPages(|all|)
    ensures 1 <= ShowingFrom(page) <= ShowingTo(page, |all|) <= |all|
    ensures ShowingTo(page, |all|) - ShowingFrom(page) + 1 == |PageOf(all, page)|
  {
    PageContents(all, page);
  }

  /** `truncateText`: empty stays empty, short text is kept, long text is
      cut to `maxLength` characters followed by an ellipsis. */
  function Truncate(text: string, maxLength: int): (r: string)
    ensures text == "" ==> r == ""
    ensures text != "" && |text| <= maxLength ==> r == text
    ensures 0 <= maxLength < |text| ==> r == text[..maxLength] + "..." && |r| == maxLength + 3
  {
    if text == "" then ""
    else if |text| <= maxLength then text
    else JsArrays.Slice(text, 0, maxLength) + "..."
  }

  /** What the status cell of a table row shows. */
  datatype StatusCell = VerifyButton | VerifiedLabel

  /** The status cell: a Verify button for an unreviewed post, the
      "Verified" label for a reviewed one. */
  function StatusCellOf(p: PostDTO): (c: StatusCell)
    ensures c == VerifyButton <==> p.status == Unreviewed
    ensures c == VerifiedLabel <==> p.status.Reviewed?
  {
    if p.status == Unreviewed then VerifyButton else VerifiedLabel
  }

  /** The Verify button is offered for the post's row: the only way to
      reach `handleVerifyClick`. */
  predicate VerifyOffered(p: PostDTO) {
    StatusCellOf(p) == VerifyButton
  }

  /** `posts.filter(p => p.id !== id)`. */
  function WithoutId(posts: seq<PostDTO>, id: Option<int>): (r: seq<PostDTO>)
    ensures forall p :: p in r ==> p in posts && p.id != id
    ensures |r| <= |posts|
  {
    if posts == [] then []
    else if posts[0].id != id then [posts[0]] + WithoutId(posts[1..], id)
    else WithoutId(posts[1..], id)
  }

  function CountId(posts: seq<PostDTO>, id: Option<int>): nat {
    if posts == [] then 0 else (if posts[0].id == id then 1 else 0) + CountId(posts[1..], id)
  }

  /** The filter drops exactly the posts that carry the id, and keeps every
      other post. */
  lemma {:induction false} WithoutIdCount(posts: seq<PostDTO>, id: Option<int>)
    ensures |WithoutId(posts, id)| == |posts| - CountId(posts, id)
    ensures forall p :: p in posts && p.id != id ==> p in WithoutId(posts, id)
  {
    if posts != [] {
      WithoutIdCount(posts[1..], id);
      assert forall p :: p in posts ==> p == posts[0] || p in posts[1..];
    }
  }

  // ----- page buttons -----

  function PreviousPage(page: int): int {
    Max(1, page - 1)
  }

  /** As written: `Math.min(totalPages, page + 1)`. */
  function NextPage(page: int, totalPages: int): int {
    Min(totalPages, page + 1)
  }

  /** Next is disabled only on the page numbered totalPages. */
  predicate NextEnabled(page: int, totalPages: int) {
    page != totalPages
  }

  predicate PreviousEnabled(page: int) {
    page != 1
  }

  /** With nothing to list, Next is enabled on the first page, and pressing
      it moves to page 0, whose "Showing" line reads -9 to 0. */
  lemma NextOnEmptyList()
    ensures NextEnabled(1, TotalPages(0))
    ensures NextPage(1, TotalPages(0)) == 0
    ensures ShowingFrom(0) == -9 && ShowingTo(0, 0) == 0
  {
  }

  /** Corrected: the page count is taken as at least one, so Next never
      leaves the pages that exist. */
  function NextPageClamped(page: int, totalPages: int): int {
    Min(Max(totalPages, 1), page + 1)
  }

  /** From any page numbered 1 or more, Previous and the corrected Next stay
      at 1 or more; the corrected Next moves by one while there is a later
      page and never passes the last page. */
  lemma PageButtonsStayOnPages(page: int, totalPages: nat)
    requires 1 <= page
    ensures 1 <= PreviousPage(page) && 1 <= NextPageClamped(page, totalPages)
    ensures page < totalPages ==> NextPageClamped(page, totalPages) == page + 1
    ensures page <= Max(totalPages, 1) ==> NextPageClamped(page, totalPages) <= Max(totalPages, 1)
    ensures page > 1 ==> PreviousPage(page) == page - 1
    ensures 1 <= page < totalPages ==> PreviousPage(NextPageClamped(page, totalPages)) == page
  {
  }

  class Home {
    var unreviewedPosts: seq<PostDTO>
    var reviewedPosts: seq<PostDTO>
    var currentPage: int
    var selectedPost: Option<PostDTO>

    function AllPosts(): seq<PostDTO>
      reads this
    {
      unreviewedPosts + reviewedPosts
    }

    constructor ()
      ensures unreviewedPosts == [] && reviewedPosts == [] && currentPage == 1 && selectedPost == None
    {
      unreviewedPosts, reviewedPosts := [], [];
      currentPage := 1;
      selectedPost := None;
    }

    /** The two listings arrive together; if either request fails, both
        lists stay as they were. */
    method FinishFetch(fetched: Option<(seq<PostDTO>, seq<PostDTO>)>)
      modifies this
      ensures fetched.Some? ==> unreviewedPosts == fetched.value.0 && reviewedPosts == fetched.value.1
      ensures fetched.None? ==> unreviewedPosts == old(unreviewedPosts) && reviewedPosts == old(reviewedPosts)
      ensures currentPage == old(currentPage) && selectedPost == old(selectedPost)
    {
      if fetched.Some? {
        unreviewedPosts, reviewedPosts := fetched.value.0, fetched.value.1;
      }
    }

    method HandleVerifyClick(post: PostDTO)
      requires VerifyOffered(post)
      modifies this
      ensures selectedPost == Some(post) && selectedPost.value.status == Unreviewed
      ensures unreviewedPosts == old(unreviewedPosts) && reviewedPosts == old(reviewedPosts) && currentPage == old(currentPage)
    {
      selectedPost := Some(post);
    }

    /** Asks the server to mark the post reviewed; `reviewed` is how that
        request settled. On success every post with that id leaves the
        unreviewed list, the updated post joins the end of the reviewed list
        and the selection is cleared; on failure nothing changes. */
    method HandleSaveReview(updatedPost: PostDTO, reviewed: Outcome<VerificationContext.Thrown>)
      returns (call: VerificationContext.ApiCall)
      modifies this
      ensures call == VerificationContext.ReviewPostCall(updatedPost.id)
      ensures reviewed.Pass? ==>
        && unreviewedPosts == WithoutId(old(unreviewedPosts), updatedPost.id)
        && reviewedPosts == old(reviewedPosts) + [updatedPost]
        && selectedPost == None
        && |AllPosts()| == |old(AllPosts())| + 1 - CountId(old(unreviewedPosts), updatedPost.id)
      ensures reviewed.Fail? ==>
        unreviewedPosts == old(unreviewedPosts) && reviewedPosts == old(reviewedPosts) && selectedPost == old(selectedPost)
      ensures currentPage == old(currentPage)
    {
      call := VerificationContext.ReviewPostCall(updatedPost.id);
      if reviewed.Pass? {
        WithoutIdCount(unreviewedPosts, updatedPost.id);
        unreviewedPosts := WithoutId(unreviewedPosts, updatedPost.id);
        reviewedPosts := reviewedPosts + [updatedPost];
        selectedPost := None;
      }
    }

    method Previous()
      modifies this
      ensures currentPage == PreviousPage(old(currentPage))
      ensures unreviewedPosts == old(unreviewedPosts) && reviewedPosts == old(reviewedPosts) && selectedPost == old(selectedPost)
    {
      currentPage := PreviousPage(currentPage);
    }

    /** As written. */
    method Next()
      modifies this
      ensures currentPage == NextPage(old(currentPage), TotalPages(|AllPosts()|))
      ensures unreviewedPosts == old(unreviewedPosts) && reviewedPosts == old(reviewedPosts) && selectedPost == old(selectedPost)
    {
      currentPage := NextPage(currentPage, TotalPages(|AllPosts()|));
    }

    /** Corrected: keeps the page number at 1 or more. */
    method NextClamped()
      modifies this
      ensures old(currentPage) >= 1 ==> currentPage >= 1
      ensures currentPage == NextPageClamped(old(currentPage), TotalPages(|AllPosts()|))
      ensures unreviewedPosts == old(unreviewedPosts) && reviewedPosts == old(reviewedPosts) && selectedPost == old(selectedPost)
    {
      currentPage := NextPageClamped(currentPage, TotalPages(|AllPosts()|));
    }

    /** A numbered page button; one exists for each page. */
    method GoToPage(page: int)
      requires 1 <= page <= TotalPages(|AllPosts()|)
      modifies this
      ensures currentPage == page
      ensures unreviewedPosts == old(unreviewedPosts) && reviewedPosts == old(reviewedPosts) && selectedPost == old(selectedPost)
    {
      currentPage := page;
    }
  }
}
