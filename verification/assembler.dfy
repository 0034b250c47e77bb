/** The read handlers of the post controller as functions of the tables: the detail
    projection of `getPostById`, the summary projections and paging of `getPostByUser`,
    `getAllPosts` and `searchPosts`, and the plain lists of comments and replies. */
module Assembler {
  import opened Rows
  import opened Query

  /** `attributes: ['id', 'name']` on an included user. */
  const AuthorAttributes: set<string> := {"id", "name"}
  /** `attributes: ['id', 'avatar']` on an included profile. */
  const ProfileAttributes: set<string> := {"id", "avatar"}

  /** The tables, keyed by id; profiles are keyed by the id of the user that owns them. */
  datatype Db = Db(
    posts: map<int, Row>,
    images: map<int, Row>,
    comments: map<int, Row>,
    replies: map<int, Row>,
    users: map<int, Row>,
    profiles: map<int, Row>)

  /** An included user, with its included profile when the user has one. */
  datatype Author = Author(user: Row, profile: Option<Row>)

  /** One comment of the detail projection with its replies and its author. */
  datatype CommentDetail = CommentDetail(id: int, comment: Row, replies: seq<Row>, author: Option<Author>)

  /** The detail projection of one post. */
  datatype Detail = Detail(id: int, post: Row, author: Option<Author>, images: seq<Row>, comments: seq<CommentDetail>)

  /** The summary projection of one post, one shape per list handler. */
  datatype Summary =
    | UserPost(id: int, post: Row, images: seq<Row>, commentIds: seq<int>)                         // getPostByUser
    | FeedPost(id: int, post: Row, author: Option<Row>, images: seq<Row>, commentIds: seq<int>)    // getAllPosts
    | FoundPost(id: int, post: Row, author: Option<Row>, images: seq<Row>)                         // searchPosts

  /** `{result, totalCount}` of a list handler. */
  datatype Listing = Listing(results: seq<Summary>, totalCount: nat)

  // ---------------------------------------------------------------------------
  // Included associations

  /** The user id a post, comment or reply row points at, when it holds an integer. */
  function OwnerOf(row: Row): Option<int>
  {
    if "userId" in row && row["userId"].Int? then Some(row["userId"].i) else None
  }

  /** `view` is `row` cut down to the listed attributes: exactly those of them the row has, with
      the row's values. */
  ghost predicate ShowsOnly(view: Row, row: Row, attributes: set<string>)
  {
    view.Keys == row.Keys * attributes && forall k :: k in view ==> view[k] == row[k]
  }

  /** `include: [{model: User, attributes: ['id', 'name']}]`: a left join, so a row whose user is
      absent gets no author. */
  function UserView(db: Db, row: Row): (r: Option<Row>)
    ensures r.Some? <==> OwnerOf(row).Some? && OwnerOf(row).value in db.users
    ensures r.Some? ==> OwnerOf(row).Some? && OwnerOf(row).value in db.users &&
                        ShowsOnly(r.value, db.users[OwnerOf(row).value], AuthorAttributes)
  {
    match OwnerOf(row)
    case Some(u) => if u in db.users then Some(Project(db.users[u], AuthorAttributes)) else None
    case None => None
  }

  /** `a` is the author of `row` as the detail projection includes it: the user `{id, name}` the
      row points at, with that user's profile `{id, avatar}` when there is one. */
  ghost predicate IsAuthorOf(db: Db, row: Row, a: Option<Author>)
  {
    && (a.Some? <==> OwnerOf(row).Some? && OwnerOf(row).value in db.users)
    && (a.Some? ==>
          && OwnerOf(row).Some? && OwnerOf(row).value in db.users
          && ShowsOnly(a.value.user, db.users[OwnerOf(row).value], AuthorAttributes)
          && (a.value.profile.Some? <==> OwnerOf(row).value in db.profiles)
          && (a.value.profile.Some? ==>
                OwnerOf(row).value in db.profiles &&
                ShowsOnly(a.value.profile.value, db.profiles[OwnerOf(row).value], ProfileAttributes)))
  }

  /** The user `{id, name}` of a row together with that user's profile `{id, avatar}`. */
  function AuthorView(db: Db, row: Row): (r: Option<Author>)
    ensures IsAuthorOf(db, row, r)
  {
    match OwnerOf(row)
    case Some(u) =>
      if u in db.users then
        var profile := if u in db.profiles then Some(Project(db.profiles[u], ProfileAttributes)) else None;
        Some(Author(Project(db.users[u], AuthorAttributes), profile))
      else None
    case None => None
  }

  /** `include: [{model: PostImage}]`: the image rows bound to the post, in the order the ids
      of the bound rows are listed. */
  function ImagesOf(db: Db, postId: int): (r: seq<Row>)
    ensures |r| == CountWhere(db.images, ColumnIs("postId", Int(postId)))
    ensures forall i :: 0 <= i < |r| ==> r[i] == db.images[Select(db.images, ColumnIs("postId", Int(postId)))[i]]
    ensures forall i :: 0 <= i < |r| ==> "postId" in r[i] && r[i]["postId"] == Int(postId)
  {
    RowsAt(db.images, Select(db.images, ColumnIs("postId", Int(postId))))
  }

  /** `include: [{model: PostComment, attributes: ['id']}]`: the ids of the post's comments. */
  function CommentIdsOf(db: Db, postId: int): (r: seq<int>)
    ensures forall k :: k in r <==> k in db.comments && Matches(db.comments[k], ColumnIs("postId", Int(postId)))
  {
    Select(db.comments, ColumnIs("postId", Int(postId)))
  }

  /** `include: [{model: PostCommentReply}]`: the reply rows of a comment. */
  function RepliesOf(db: Db, commentId: int): (r: seq<Row>)
    ensures |r| == CountWhere(db.replies, ColumnIs("postCommentId", Int(commentId)))
    ensures forall i :: 0 <= i < |r| ==>
              r[i] == db.replies[Select(db.replies, ColumnIs("postCommentId", Int(commentId)))[i]]
    ensures forall i :: 0 <= i < |r| ==> "postCommentId" in r[i] && r[i]["postCommentId"] == Int(commentId)
  {
    RowsAt(db.replies, Select(db.replies, ColumnIs("postCommentId", Int(commentId))))
  }

  /** One comment of the detail projection: its own row, its replies and its author. */
  function CommentDetailOf(db: Db, commentId: int): (r: CommentDetail)
    requires commentId in db.comments
    ensures r.id == commentId && r.comment == db.comments[commentId]
    ensures r.replies == RepliesOf(db, commentId)
    ensures IsAuthorOf(db, r.comment, r.author)
  {
    var row := db.comments[commentId];
    CommentDetail(commentId, row, RepliesOf(db, commentId), AuthorView(db, row))
  }

  // ---------------------------------------------------------------------------
  // getPostById

  /** The comments of a post in the detail projection: each of the post's comments once,
      ascending id, with its replies and its author. */
  function CommentsOf(db: Db, postId: int): (r: seq<CommentDetail>)
    ensures |r| == CountWhere(db.comments, ColumnIs("postId", Int(postId)))
    ensures forall i :: 0 <= i < |r| ==>
              && r[i].id in db.comments && Matches(db.comments[r[i].id], ColumnIs("postId", Int(postId)))
              && r[i].comment == db.comments[r[i].id]
              && r[i].replies == RepliesOf(db, r[i].id)
              && IsAuthorOf(db, r[i].comment, r[i].author)
    ensures forall i, j :: 0 <= i < j < |r| ==> r[i].id < r[j].id
  {
    var ids := CommentIdsOf(db, postId);
    seq(|ids|, i requires 0 <= i < |ids| => CommentDetailOf(db, ids[i]))
  }

  /** The detail projection of a post; a missing post gives `{result: null}` (here `None`),
      not an error. */
  function GetPostById(db: Db, postId: int): (r: Option<Detail>)
    ensures r.None? <==> postId !in db.posts
    ensures r.Some? ==> r.value.id == postId && r.value.post == db.posts[postId]
    ensures r.Some? ==> IsAuthorOf(db, r.value.post, r.value.author)
    ensures r.Some? ==> r.value.images == ImagesOf(db, postId) && r.value.comments == CommentsOf(db, postId)
    ensures r.Some? ==> |r.value.images| == CountWhere(db.images, ColumnIs("postId", Int(postId)))
    ensures r.Some? ==> forall i :: 0 <= i < |r.value.images| ==> "postId" in r.value.images[i] && r.value.images[i]["postId"] == Int(postId)
    ensures r.Some? ==> |r.value.comments| == CountWhere(db.comments, ColumnIs("postId", Int(postId)))
    ensures r.Some? ==> forall i :: 0 <= i < |r.value.comments| ==>
              r.value.comments[i].id in db.comments && Matches(db.comments[r.value.comments[i].id], ColumnIs("postId", Int(postId)))
  {
    if postId !in db.posts then None
    else
      var row := db.posts[postId];
      Some(Detail(postId, row, AuthorView(db, row), ImagesOf(db, postId), CommentsOf(db, postId)))
  }

  // ---------------------------------------------------------------------------
  // Summaries

  /** A getPostByUser entry: the post with its images and the ids of its comments. */
  function UserSummary(db: Db, postId: int): (r: Summary)
    requires postId in db.posts
    ensures r.UserPost? && r.id == postId && r.post == db.posts[postId]
    ensures r.images == ImagesOf(db, postId) && r.commentIds == CommentIdsOf(db, postId)
  {
    UserPost(postId, db.posts[postId], ImagesOf(db, postId), CommentIdsOf(db, postId))
  }

  /** A getAllPosts entry: the post with its author `{id, name}`, its images and its comment ids. */
  function FeedSummary(db: Db, postId: int): (r: Summary)
    requires postId in db.posts
    ensures r.FeedPost? && r.id == postId && r.post == db.posts[postId]
    ensures r.author == UserView(db, r.post)
    ensures r.images == ImagesOf(db, postId) && r.commentIds == CommentIdsOf(db, postId)
  {
    var row := db.posts[postId];
    FeedPost(postId, row, UserView(db, row), ImagesOf(db, postId), CommentIdsOf(db, postId))
  }

  /** A searchPosts entry: the post with its author `{id, name}` and its images. */
  function FoundSummary(db: Db, postId: int): (r: Summary)
    requires postId in db.posts
    ensures r.FoundPost? && r.id == postId && r.post == db.posts[postId]
    ensures r.author == UserView(db, r.post)
    ensures r.images == ImagesOf(db, postId)
  {
    var row := db.posts[postId];
    FoundPost(postId, row, UserView(db, row), ImagesOf(db, postId))
  }

  /** Which summary shape a list handler builds. */
  datatype Shape = ByUser | Feed | Found

  /** The summary of a post in the shape of one list handler. */
  function Summarize(db: Db, shape: Shape, postId: int): (r: Summary)
    requires postId in db.posts
    ensures r.id == postId && r.post == db.posts[postId]
    ensures r.images == ImagesOf(db, postId)
    ensures !r.FoundPost? ==> r.commentIds == CommentIdsOf(db, postId)
    ensures !r.UserPost? ==> r.author == UserView(db, r.post)
    ensures shape == ByUser ==> r.UserPost?
    ensures shape == Feed ==> r.FeedPost?
    ensures shape == Found ==> r.FoundPost?
  {
    match shape
    case ByUser => UserSummary(db, postId)
    case Feed => FeedSummary(db, postId)
    case Found => FoundSummary(db, postId)
  }

  /** One page of `ranked`, each id summarised in the given shape. */
  function SummarizePage(db: Db, shape: Shape, ranked: seq<int>, limit: Option<nat>, offset: Option<nat>): (r: seq<Summary>)
    requires InTable(db.posts, ranked)
    ensures |r| <= EffectiveLimit(limit)
    ensures EffectiveOffset(offset) <= |ranked| ==>
              |r| == if |ranked| - EffectiveOffset(offset) <= EffectiveLimit(limit)
                     then |ranked| - EffectiveOffset(offset) else EffectiveLimit(limit)
    ensures EffectiveOffset(offset) >= |ranked| ==> r == []
    ensures forall i :: 0 <= i < |r| ==>
              EffectiveOffset(offset) + i < |ranked| && r[i] == Summarize(db, shape, ranked[EffectiveOffset(offset) + i])
  {
    var page := Page(ranked, limit, offset);
    seq(|page|, i requires 0 <= i < |page| => Summarize(db, shape, page[i]))
  }

  // ---------------------------------------------------------------------------
  // The list handlers

  /** The post ids `getPostByUser` lists before paging: the user's posts, ascending id. */
  function UserOrder(db: Db, userId: int): (r: seq<int>)
    ensures InTable(db.posts, r)
    ensures forall k :: k in r <==> k in db.posts && Matches(db.posts[k], ColumnIs("userId", Int(userId)))
    ensures forall i, j :: 0 <= i < j < |r| ==> r[i] < r[j]
    ensures |r| == CountWhere(db.posts, ColumnIs("userId", Int(userId)))
  {
    Select(db.posts, ColumnIs("userId", Int(userId)))
  }

  /** The post ids `getAllPosts` lists before paging: every post, newest first. */
  function FeedOrder(db: Db): (r: seq<int>)
    ensures InTable(db.posts, r) && NewestFirst(db.posts, r)
    ensures multiset(r) == multiset(Select(db.posts, Everything))
    ensures |r| == |db.posts|
  {
    CountEverything(db.posts);
    SortNewest(db.posts, Select(db.posts, Everything))
  }

  /** The post ids `searchPosts` lists before paging: posts whose content contains the keyword,
      newest first. */
  function SearchOrder(db: Db, keyword: string): (r: seq<int>)
    ensures InTable(db.posts, r) && NewestFirst(db.posts, r)
    ensures multiset(r) == multiset(Select(db.posts, ContentHas(keyword)))
    ensures |r| == CountWhere(db.posts, ContentHas(keyword))
  {
    SortNewest(db.posts, Select(db.posts, ContentHas(keyword)))
  }

  /** getPostByUser: one page of the user's posts and the number of all of them. */
  function GetPostByUser(db: Db, userId: int, limit: Option<nat>, offset: Option<nat>): (r: Listing)
    ensures r.totalCount == CountWhere(db.posts, ColumnIs("userId", Int(userId)))
    ensures |r.results| <= EffectiveLimit(limit)
    ensures EffectiveOffset(offset) <= r.totalCount ==>
              |r.results| == if r.totalCount - EffectiveOffset(offset) <= EffectiveLimit(limit)
                             then r.totalCount - EffectiveOffset(offset) else EffectiveLimit(limit)
    ensures EffectiveOffset(offset) >= r.totalCount ==> r.results == []
    ensures forall i :: 0 <= i < |r.results| ==>
              && r.results[i].UserPost?
              && EffectiveOffset(offset) + i < |UserOrder(db, userId)|
              && r.results[i].id == UserOrder(db, userId)[EffectiveOffset(offset) + i]
              && r.results[i].id in db.posts
              && r.results[i].post == db.posts[r.results[i].id]
              && Matches(r.results[i].post, ColumnIs("userId", Int(userId)))
              && r.results[i].images == ImagesOf(db, r.results[i].id)
              && r.results[i].commentIds == CommentIdsOf(db, r.results[i].id)
  {
    var ranked := UserOrder(db, userId);
    var results := SummarizePage(db, ByUser, ranked, limit, offset);
    Listing(results, CountWhere(db.posts, ColumnIs("userId", Int(userId))))
  }

  /** getAllPosts: one page of all posts, newest first, and the number of all posts. */
  function GetAllPosts(db: Db, limit: Option<nat>, offset: Option<nat>): (r: Listing)
    ensures r.totalCount == |db.posts|
    ensures |r.results| <= EffectiveLimit(limit)
    ensures EffectiveOffset(offset) <= r.totalCount ==>
              |r.results| == if r.totalCount - EffectiveOffset(offset) <= EffectiveLimit(limit)
                             then r.totalCount - EffectiveOffset(offset) else EffectiveLimit(limit)
    ensures EffectiveOffset(offset) >= r.totalCount ==> r.results == []
    ensures forall i :: 0 <= i < |r.results| ==>
              && r.results[i].FeedPost?
              && EffectiveOffset(offset) + i < |FeedOrder(db)|
              && r.results[i].id == FeedOrder(db)[EffectiveOffset(offset) + i]
              && r.results[i].id in db.posts
              && r.results[i].post == db.posts[r.results[i].id]
              && r.results[i].author == UserView(db, r.results[i].post)
              && r.results[i].images == ImagesOf(db, r.results[i].id)
              && r.results[i].commentIds == CommentIdsOf(db, r.results[i].id)
    ensures forall i, j :: 0 <= i < j < |r.results| ==> Stamp(r.results[i].post) >= Stamp(r.results[j].post)
  {
    var ranked := FeedOrder(db);
    var results := SummarizePage(db, Feed, ranked, limit, offset);
    Listing(results, |db.posts|)
  }

  /** searchPosts: one page of the posts whose content contains the keyword, newest first,
      and the number of all such posts. */
  function SearchPosts(db: Db, keyword: string, limit: Option<nat>, offset: Option<nat>): (r: Listing)
    ensures r.totalCount == CountWhere(db.posts, ContentHas(keyword))
    ensures |r.results| <= EffectiveLimit(limit)
    ensures EffectiveOffset(offset) <= r.totalCount ==>
              |r.results| == if r.totalCount - EffectiveOffset(offset) <= EffectiveLimit(limit)
                             then r.totalCount - EffectiveOffset(offset) else EffectiveLimit(limit)
    ensures EffectiveOffset(offset) >= r.totalCount ==> r.results == []
    ensures forall i :: 0 <= i < |r.results| ==>
              && r.results[i].FoundPost?
              && EffectiveOffset(offset) + i < |SearchOrder(db, keyword)|
              && r.results[i].id == SearchOrder(db, keyword)[EffectiveOffset(offset) + i]
              && r.results[i].id in db.posts
              && r.results[i].post == db.posts[r.results[i].id]
              && r.results[i].author == UserView(db, r.results[i].post)
              && r.results[i].images == ImagesOf(db, r.results[i].id)
    ensures forall i, j :: 0 <= i < j < |r.results| ==> Stamp(r.results[i].post) >= Stamp(r.results[j].post)
  {
    var ranked := SearchOrder(db, keyword);
    var results := SummarizePage(db, Found, ranked, limit, offset);
    Listing(results, CountWhere(db.posts, ContentHas(keyword)))
  }

  /** Every id the search ranks belongs to a post whose content contains the keyword. */
  lemma SearchOrderMatches(db: Db, keyword: string)
    ensures forall i :: 0 <= i < |SearchOrder(db, keyword)| ==>
              Matches(db.posts[SearchOrder(db, keyword)[i]], ContentHas(keyword))
  {
    var ranked := SearchOrder(db, keyword);
    var selected := Select(db.posts, ContentHas(keyword));
    forall i | 0 <= i < |ranked| ensures Matches(db.posts[ranked[i]], ContentHas(keyword)) {
      assert ranked[i] in multiset(ranked);
      assert ranked[i] in selected;
    }
  }

  /** Every post searchPosts returns contains the keyword. */
  lemma SearchResultsMatch(db: Db, keyword: string, limit: Option<nat>, offset: Option<nat>)
    ensures var res := SearchPosts(db, keyword, limit, offset).results;
            forall i :: 0 <= i < |res| ==> res[i].id in db.posts && Matches(db.posts[res[i].id], ContentHas(keyword))
  {
    SearchOrderMatches(db, keyword);
  }

  /** Without `limit` and `offset` a ranked list no longer than the sentinel limit is summarised whole. */
  lemma UnpagedIsWhole(db: Db, shape: Shape, ranked: seq<int>)
    requires InTable(db.posts, ranked) && |ranked| <= DefaultLimit
    ensures |SummarizePage(db, shape, ranked, None, None)| == |ranked|
  {
    DefaultPageIsWhole(ranked);
  }

  /** Without `limit` and `offset`, getPostByUser returns every post it counts (up to the
      sentinel limit of one million). */
  lemma UnpagedUserListingIsComplete(db: Db, userId: int)
    requires |db.posts| <= DefaultLimit
    ensures |GetPostByUser(db, userId, None, None).results| == GetPostByUser(db, userId, None, None).totalCount
  {
    UnpagedIsWhole(db, ByUser, UserOrder(db, userId));
  }

  /** Without `limit` and `offset`, getAllPosts returns every post. */
  lemma UnpagedFeedIsComplete(db: Db)
    requires |db.posts| <= DefaultLimit
    ensures |GetAllPosts(db, None, None).results| == GetAllPosts(db, None, None).totalCount
  {
    UnpagedIsWhole(db, Feed, FeedOrder(db));
  }

  /** Without `limit` and `offset`, searchPosts returns every post it counts. */
  lemma UnpagedSearchIsComplete(db: Db, keyword: string)
    requires |db.posts| <= DefaultLimit
    ensures |SearchPosts(db, keyword, None, None).results| == SearchPosts(db, keyword, None, None).totalCount
  {
    UnpagedIsWhole(db, Found, SearchOrder(db, keyword));
  }

  /** Every post whose content contains the keyword is among the results of an unpaged search. */
  lemma SearchFindsEveryMatch(db: Db, keyword: string, postId: int)
    requires |db.posts| <= DefaultLimit
    requires postId in db.posts && Matches(db.posts[postId], ContentHas(keyword))
    ensures exists i :: 0 <= i < |SearchPosts(db, keyword, None, None).results| &&
                        SearchPosts(db, keyword, None, None).results[i].id == postId
  {
    var ranked := SearchOrder(db, keyword);
    UnpagedSearchIsComplete(db, keyword);
    assert postId in multiset(ranked) by {
      assert postId in Select(db.posts, ContentHas(keyword));
    }
    var i :| 0 <= i < |ranked| && ranked[i] == postId;
    assert SearchPosts(db, keyword, None, None).results[i].id == postId;
  }

  /** A post has text content: the only kind `LIKE` can match. */
  predicate HasText(row: Row)
  {
    "content" in row && row["content"].Text?
  }

  /** The empty keyword (`LIKE '%%'`) finds exactly the posts with text content; when every post
      has text content the search counts them all. */
  lemma EmptyKeywordFindsAllText(db: Db, limit: Option<nat>, offset: Option<nat>)
    ensures forall k :: k in db.posts ==> (Matches(db.posts[k], ContentHas("")) <==> HasText(db.posts[k]))
    ensures (forall k :: k in db.posts ==> HasText(db.posts[k])) ==>
              SearchPosts(db, "", limit, offset).totalCount == |db.posts|
  {
    forall k | k in db.posts && HasText(db.posts[k]) ensures Matches(db.posts[k], ContentHas("")) {
      EmptyKeywordEverywhere(db.posts[k]["content"].s);
    }
    if forall k :: k in db.posts ==> HasText(db.posts[k]) {
      assert Where(db.posts, ContentHas("")) == db.posts.Keys;
      assert |db.posts.Keys| == |db.posts|;
    }
  }

  /** getPostCommentByPost: the comment rows of a post. */
  function GetPostCommentByPost(db: Db, postId: int): (r: seq<Row>)
    ensures |r| == CountWhere(db.comments, ColumnIs("postId", Int(postId)))
    ensures forall i :: 0 <= i < |r| ==>
              r[i] == db.comments[Select(db.comments, ColumnIs("postId", Int(postId)))[i]]
    ensures forall i :: 0 <= i < |r| ==> "postId" in r[i] && r[i]["postId"] == Int(postId)
  {
    RowsAt(db.comments, Select(db.comments, ColumnIs("postId", Int(postId))))
  }

  /** getPostCommentReplyByPostComment: the reply rows of a comment. */
  function GetPostCommentReplyByPostComment(db: Db, commentId: int): (r: seq<Row>)
    ensures |r| == CountWhere(db.replies, ColumnIs("postCommentId", Int(commentId)))
    ensures forall i :: 0 <= i < |r| ==>
              r[i] == db.replies[Select(db.replies, ColumnIs("postCommentId", Int(commentId)))[i]]
    ensures forall i :: 0 <= i < |r| ==> "postCommentId" in r[i] && r[i]["postCommentId"] == Int(commentId)
  {
    RepliesOf(db, commentId)
  }
}
