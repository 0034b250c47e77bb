/** The write handlers of the post controller as methods of one store object that holds the
    tables. Every handler is a short sequence of table writes that can stop early: there is no
    transaction, so a failure part-way leaves the earlier writes in place. */
module Store {
  import opened Rows
  import opened Query
  import Ledger
  import opened Assembler

  /** What a handler sends back, reduced to its status and `{result, data}`. */
  datatype Response =
    | Success(result: string, data: Option<int>)   // status 200
    | NotFound(msg: string)                        // status 404
    | ServerError                                  // status 500 with `{msg: err.toString()}`

  // ---------------------------------------------------------------------------
  // Rows the handlers create

  /** `Post.create({userId, content, createdDate: new Date()})` under the id `id`. */
  function PostRow(id: int, userId: int, content: Value, now: nat): (r: Row)
    ensures "id" in r && r["id"] == Int(id)
    ensures OwnerOf(r) == Some(userId) && Stamp(r) == now
    ensures "content" in r && r["content"] == content
  {
    map["id" := Int(id), "userId" := Int(userId), "content" := content, "createdDate" := Int(now)]
  }

  /** `PostComment.create({postId, userId, comment, createdDate: new Date()})` under the id `id`. */
  function CommentRow(id: int, postId: int, userId: int, comment: Value, now: nat): (r: Row)
    ensures "id" in r && r["id"] == Int(id)
    ensures OwnerOf(r) == Some(userId) && Stamp(r) == now
    ensures Matches(r, ColumnIs("postId", Int(postId)))
    ensures "comment" in r && r["comment"] == comment
  {
    map["id" := Int(id), "postId" := Int(postId), "userId" := Int(userId), "comment" := comment, "createdDate" := Int(now)]
  }

  /** `PostCommentReply.create({postCommentId, userId, content, createdDate: new Date()})` under
      the id `id`. */
  function ReplyRow(id: int, commentId: int, userId: int, content: Value, now: nat): (r: Row)
    ensures "id" in r && r["id"] == Int(id)
    ensures OwnerOf(r) == Some(userId) && Stamp(r) == now
    ensures Matches(r, ColumnIs("postCommentId", Int(commentId)))
    ensures "content" in r && r["content"] == content
  {
    map["id" := Int(id), "postCommentId" := Int(commentId), "userId" := Int(userId), "content" := content, "createdDate" := Int(now)]
  }

  function ImageRow(id: int, postId: Value, image: Value): Row
  {
    map["id" := Int(id), "postId" := postId, "image" := image]
  }

  /** The ids `start`, `start + 1`, ..., `start + n - 1`: the ids a bulk insert of `n` rows takes. */
  function IdRange(start: int, n: nat): (s: set<int>)
    ensures forall k :: k in s <==> start <= k < start + n
    ensures |s| == n
  {
    if n == 0 then {} else IdRange(start, n - 1) + {start + n - 1}
  }

  /** `bulkCreate(images.map(x => ({postId, image: x})))`: one row per image, bound to the post,
      with consecutive ids from `start`. */
  function ImageRows(start: int, postId: int, list: seq<Value>): (r: map<int, Row>)
    ensures forall k :: k in r <==> start <= k < start + |list|
    ensures forall k :: k in r ==> r[k] == ImageRow(k, Int(postId), list[k - start])
    ensures |r| == |list|
  {
    var r := map k | k in IdRange(start, |list|) :: ImageRow(k, Int(postId), list[k - start]);
    assert r.Keys == IdRange(start, |list|);
    r
  }

  /** `bulkCreate(imageList)` with the raw list, as `updatePost` does it: the rows are created
      with consecutive ids but neither the post id nor the image is bound to them. */
  function RawImageRows(start: int, list: seq<Value>): (r: map<int, Row>)
    ensures forall k :: k in r <==> start <= k < start + |list|
    ensures forall k :: k in r ==> r[k] == ImageRow(k, Null, Null)
  {
    map k | k in IdRange(start, |list|) :: ImageRow(k, Null, Null)
  }

  /** Every row of `ImageRows` is bound to its post. */
  lemma ImageRowsBound(start: int, postId: int, list: seq<Value>)
    ensures var added := ImageRows(start, postId, list);
            forall k :: k in added ==> Matches(added[k], ColumnIs("postId", Int(postId)))
  {
  }

  /** Filtering a union of two tables with disjoint keys filters each of them. */
  lemma WhereOfUnion(t: map<int, Row>, u: map<int, Row>, f: Filter)
    requires forall k :: k in t ==> k !in u
    ensures Where(t + u, f) == Where(t, f) + Where(u, f)
  {
    forall k ensures k in Where(t + u, f) <==> k in Where(t, f) + Where(u, f) {
      if k in u {
        assert (t + u)[k] == u[k];
      } else if k in t {
        assert (t + u)[k] == t[k];
      }
    }
  }

  /** Inserting the rows of `ImageRows` under fresh ids adds exactly `|list|` rows bound to the post. */
  lemma BoundImagesAfterInsert(t: map<int, Row>, start: int, postId: int, list: seq<Value>)
    requires forall k :: k in t ==> k < start
    ensures CountWhere(t + ImageRows(start, postId, list), ColumnIs("postId", Int(postId)))
         == CountWhere(t, ColumnIs("postId", Int(postId))) + |list|
  {
    var f := ColumnIs("postId", Int(postId));
    var added := ImageRows(start, postId, list);
    WhereOfUnion(t, added, f);
    ImageRowsBound(start, postId, list);
    assert Where(added, f) == added.Keys;
    assert |added.Keys| == |added|;
    assert Where(t, f) * Where(added, f) == {};
  }

  /** A table none of whose rows satisfies the filter has a count of zero. */
  lemma NoneMatch(t: map<int, Row>, f: Filter)
    requires forall k :: k in t ==> !Matches(t[k], f)
    ensures CountWhere(t, f) == 0
  {
    assert forall k :: k !in Where(t, f);
    assert Where(t, f) == {};
  }

  /** Whether an `updatePost` request replaces the image set: `if (req.body.images)`. */
  predicate ReplacesImages(body: Row)
  {
    "images" in body && Truthy(body["images"])
  }

  /** The image table after `updatePost`'s replacement as the handler does it: the post's rows
      are destroyed and the raw list is inserted. */
  function ReplaceImagesAsWritten(t: map<int, Row>, start: int, postId: int, list: seq<Value>): (r: map<int, Row>)
    ensures forall k :: start <= k < start + |list| ==> k in r && r[k] == ImageRow(k, Null, Null)
    ensures forall k :: k in r && !(start <= k < start + |list|) ==>
              k in t && !Matches(t[k], ColumnIs("postId", Int(postId))) && r[k] == t[k]
  {
    Without(t, ColumnIs("postId", Int(postId))) + RawImageRows(start, list)
  }

  /** The image table after the replacement the handler builds but does not insert: the post's
      rows are destroyed and the postId-bound rows are inserted. */
  function ReplaceImages(t: map<int, Row>, start: int, postId: int, list: seq<Value>): (r: map<int, Row>)
    ensures forall k :: start <= k < start + |list| ==> k in r && r[k] == ImageRows(start, postId, list)[k]
    ensures forall k :: k in r && !(start <= k < start + |list|) ==>
              k in t && !Matches(t[k], ColumnIs("postId", Int(postId))) && r[k] == t[k]
  {
    Without(t, ColumnIs("postId", Int(postId))) + ImageRows(start, postId, list)
  }

  /** The intended replacement: afterwards the rows bound to the post are exactly the new rows,
      one per submitted image, and no row of the previous set remains. */
  lemma ReplaceImagesBindsExactly(t: map<int, Row>, start: int, postId: int, list: seq<Value>)
    requires forall k :: k in t ==> k < start
    ensures var r := ReplaceImages(t, start, postId, list);
            forall k :: k in r && Matches(r[k], ColumnIs("postId", Int(postId))) <==> start <= k < start + |list|
    ensures var r := ReplaceImages(t, start, postId, list);
            var added := ImageRows(start, postId, list);
            forall k :: k in added ==> k in r && r[k] == added[k]
  {
    var f := ColumnIs("postId", Int(postId));
    var r := ReplaceImages(t, start, postId, list);
    var added := ImageRows(start, postId, list);
    ImageRowsBound(start, postId, list);
    forall k | k in r ensures Matches(r[k], f) <==> start <= k < start + |list| {
      if start <= k < start + |list| {
        assert r[k] == added[k];
      }
    }
  }

  /** The intended replacement leaves exactly `|list|` image rows bound to the post. */
  lemma ReplaceImagesExact(t: map<int, Row>, start: int, postId: int, list: seq<Value>)
    requires forall k :: k in t ==> k < start
    ensures CountWhere(ReplaceImages(t, start, postId, list), ColumnIs("postId", Int(postId))) == |list|
  {
    var kept := Without(t, ColumnIs("postId", Int(postId)));
    NoneMatch(kept, ColumnIs("postId", Int(postId)));
    BoundImagesAfterInsert(kept, start, postId, list);
  }

  /** As written, the replacement leaves the post with no image at all, whatever list of
      scalar values (image names) was sent. */
  lemma AsWrittenUnbindsImages(t: map<int, Row>, start: int, postId: int, list: seq<Value>)
    ensures CountWhere(ReplaceImagesAsWritten(t, start, postId, list), ColumnIs("postId", Int(postId))) == 0
  {
    var r := ReplaceImagesAsWritten(t, start, postId, list);
    var f := ColumnIs("postId", Int(postId));
    assert Where(r, f) == {} by {
      forall k | k in r ensures !Matches(r[k], f) {
        if k in RawImageRows(start, list) {
          assert r[k] == ImageRow(k, Null, Null);
        }
      }
    }
  }

  /** A concrete instance: post 7 owning image row 1, updated with one image, ends with none bound
      to it, where the intended replacement binds exactly one. */
  lemma AsWrittenCounterexample()
    ensures var t := map[1 := ImageRow(1, Int(7), Text("old.png"))];
            && CountWhere(ReplaceImagesAsWritten(t, 2, 7, [Text("new.png")]), ColumnIs("postId", Int(7))) == 0
            && CountWhere(ReplaceImages(t, 2, 7, [Text("new.png")]), ColumnIs("postId", Int(7))) == 1
  {
    var t := map[1 := ImageRow(1, Int(7), Text("old.png"))];
    AsWrittenUnbindsImages(t, 2, 7, [Text("new.png")]);
    ReplaceImagesExact(t, 2, 7, [Text("new.png")]);
  }

  // ---------------------------------------------------------------------------
  // The invariant of the store, one table at a time

  /** Every id of the table is positive and below the next id to be handed out. */
  ghost predicate IdsBelow(t: map<int, Row>, next: int)
  {
    0 < next && forall k :: k in t ==> 0 < k < next
  }

  /** Every image row bound to a post id names an id already handed out. */
  ghost predicate PostIdsBelow(images: map<int, Row>, nextPostId: int)
  {
    forall k :: k in images ==> PostIdBelow(images[k], nextPostId)
  }

  ghost predicate PostIdBelow(row: Row, nextPostId: int)
  {
    "postId" in row && row["postId"].Int? ==> row["postId"].i < nextPostId
  }

  ghost predicate AllConsistent(profiles: map<int, Row>)
  {
    forall u :: u in profiles ==> Ledger.Consistent(profiles[u])
  }

  /** Inserting the image rows of an existing post keeps both image invariants. */
  lemma ImageRowsKeepInvariant(images: map<int, Row>, nextImageId: int, nextPostId: int, postId: int, list: seq<Value>)
    requires IdsBelow(images, nextImageId) && PostIdsBelow(images, nextPostId) && postId < nextPostId
    ensures IdsBelow(images + ImageRows(nextImageId, postId, list), nextImageId + |list|)
    ensures PostIdsBelow(images + ImageRows(nextImageId, postId, list), nextPostId)
  {
    var u := images + ImageRows(nextImageId, postId, list);
    forall k | k in u ensures PostIdBelow(u[k], nextPostId) {
      if k !in images {
        assert u[k]["postId"] == Int(postId);
      }
    }
  }

  /** Inserting raw image rows keeps both image invariants: they are bound to no post. */
  lemma RawImageRowsKeepInvariant(images: map<int, Row>, nextImageId: int, nextPostId: int, list: seq<Value>)
    requires IdsBelow(images, nextImageId) && PostIdsBelow(images, nextPostId)
    ensures IdsBelow(images + RawImageRows(nextImageId, list), nextImageId + |list|)
    ensures PostIdsBelow(images + RawImageRows(nextImageId, list), nextPostId)
  {
    var u := images + RawImageRows(nextImageId, list);
    forall k | k in u ensures PostIdBelow(u[k], nextPostId) {
      if k !in images {
        assert u[k]["postId"] == Null;
      }
    }
  }

  // ---------------------------------------------------------------------------

  /** The tables of the feed and the next id each auto-increment column hands out. Profiles are
      keyed by the user that owns them; users and profiles are only read here. */
  class FeedStore {
    var posts: map<int, Row>
    var images: map<int, Row>
    var comments: map<int, Row>
    var replies: map<int, Row>
    var users: map<int, Row>
    var profiles: map<int, Row>
    var nextPostId: int
    var nextImageId: int
    var nextCommentId: int
    var nextReplyId: int

    /** Ids are positive and below their counters, every image bound to a post id points below the
        post counter, and every profile keeps `level == floor(exp / 1000)`. */
    ghost predicate Valid()
      reads this
    {
      && IdsBelow(posts, nextPostId) && IdsBelow(images, nextImageId)
      && IdsBelow(comments, nextCommentId) && IdsBelow(replies, nextReplyId)
      && PostIdsBelow(images, nextPostId)
      && AllConsistent(profiles)
    }

    /** The tables as the read handlers see them. */
    function View(): (db: Db)
      reads this
      ensures db.posts == posts && db.images == images && db.comments == comments
      ensures db.replies == replies && db.users == users && db.profiles == profiles
    {
      Db(posts, images, comments, replies, users, profiles)
    }

    /** An empty feed over existing users and their profiles. */
    constructor (users0: map<int, Row>, profiles0: map<int, Row>)
      requires forall u :: u in profiles0 ==> Ledger.Consistent(profiles0[u])
      ensures Valid()
      ensures posts == map[] && images == map[] && comments == map[] && replies == map[]
      ensures users == users0 && profiles == profiles0
    {
      posts, images, comments, replies := map[], map[], map[], map[];
      users, profiles := users0, profiles0;
      nextPostId, nextImageId, nextCommentId, nextReplyId := 1, 1, 1, 1;
    }

    /** `Post.create`: a new post row under the next post id. */
    method CreatePost(userId: int, content: Value, now: nat) returns (id: int)
      requires Valid()
      modifies this
      ensures Valid()
      ensures id == old(nextPostId) && nextPostId == id + 1
      ensures posts == old(posts)[id := PostRow(id, userId, content, now)]
      ensures CountWhere(images, ColumnIs("postId", Int(id))) == 0
      ensures images == old(images) && comments == old(comments) && replies == old(replies)
      ensures users == old(users) && profiles == old(profiles)
      ensures nextImageId == old(nextImageId) && nextCommentId == old(nextCommentId) && nextReplyId == old(nextReplyId)
    {
      id := nextPostId;
      NoneMatch(images, ColumnIs("postId", Int(id)));
      posts := posts[id := PostRow(id, userId, content, now)];
      nextPostId := nextPostId + 1;
    }

    /** `PostImage.bulkCreate(images.map(...))`: one image row per entry, bound to a post id
        already handed out. */
    method CreateImages(postId: int, list: seq<Value>)
      requires Valid() && postId < nextPostId
      modifies this
      ensures Valid()
      ensures images == old(images) + ImageRows(old(nextImageId), postId, list)
      ensures nextImageId == old(nextImageId) + |list|
      ensures unchanged(`posts, `comments, `replies, `users, `profiles, `nextPostId, `nextCommentId, `nextReplyId)
    {
      ImageRowsKeepInvariant(images, nextImageId, nextPostId, postId, list);
      images := images + ImageRows(nextImageId, postId, list);
      nextImageId := nextImageId + |list|;
    }

    /** `PostImage.bulkCreate(imageList)` with the parsed list itself: rows under the next image
        ids, bound to no post. */
    method CreateRawImages(list: seq<Value>)
      requires Valid()
      modifies this
      ensures Valid()
      ensures images == old(images) + RawImageRows(old(nextImageId), list)
      ensures nextImageId == old(nextImageId) + |list|
      ensures unchanged(`posts, `comments, `replies, `users, `profiles, `nextPostId, `nextCommentId, `nextReplyId)
    {
      RawImageRowsKeepInvariant(images, nextImageId, nextPostId, list);
      images := images + RawImageRows(nextImageId, list);
      nextImageId := nextImageId + |list|;
    }

    /** `profile.exp += weight; profile.level = Math.floor(profile.exp / 1000); profile.save()`.
        `found` is false when the user has no profile: reading `exp` of `null` throws. */
    method AwardExp(userId: int, weight: nat) returns (found: bool)
      requires Valid()
      modifies this
      ensures Valid()
      ensures found <==> userId in old(profiles)
      ensures found ==> profiles == old(profiles)[userId := Ledger.Award(old(profiles)[userId], weight)]
      ensures !found ==> profiles == old(profiles)
      ensures posts == old(posts) && images == old(images) && comments == old(comments)
      ensures replies == old(replies) && users == old(users)
      ensures nextPostId == old(nextPostId) && nextImageId == old(nextImageId)
      ensures nextCommentId == old(nextCommentId) && nextReplyId == old(nextReplyId)
    {
      found := userId in profiles;
      if found {
        profiles := profiles[userId := Ledger.Award(profiles[userId], weight)];
      }
    }

    /** registerPost: create the post, then its image rows, then award the author 100 exp.
        `imageList` is `None` when `req.body.images` has no `map` (absent or not an array). */
    method RegisterPost(userId: int, content: Value, imageList: Option<seq<Value>>, now: nat) returns (res: Response)
      requires Valid()
      modifies this
      ensures Valid()
      ensures posts == old(posts)[old(nextPostId) := PostRow(old(nextPostId), userId, content, now)]
      ensures nextPostId == old(nextPostId) + 1
      // the post is readable whatever happens afterwards
      ensures GetPostById(View(), old(nextPostId)).Some?
      ensures comments == old(comments) && replies == old(replies) && users == old(users)
      ensures nextCommentId == old(nextCommentId) && nextReplyId == old(nextReplyId)
      // the images cannot be mapped: the post row stays, nothing else happens
      ensures imageList.None? ==>
                && res == ServerError
                && images == old(images) && nextImageId == old(nextImageId)
                && profiles == old(profiles)
      // one image row per image, each bound to the new post
      ensures imageList.Some? ==>
                && images == old(images) + ImageRows(old(nextImageId), old(nextPostId), imageList.value)
                && nextImageId == old(nextImageId) + |imageList.value|
                && |ImagesOf(View(), old(nextPostId))| == |imageList.value|
      // the author has no profile: the post and its images stay, the handler fails
      ensures imageList.Some? && userId !in old(profiles) ==>
                res == ServerError && profiles == old(profiles)
      ensures imageList.Some? && userId in old(profiles) ==>
                && res == Success("POST_REGISTER_SUCCESS", Some(old(nextPostId)))
                && profiles == old(profiles)[userId := Ledger.Award(old(profiles)[userId], Ledger.PostReward)]
    {
      var id := CreatePost(userId, content, now);
      if imageList.None? {
        return ServerError;
      }
      ghost var before := images;
      CreateImages(id, imageList.value);
      assert CountWhere(images, ColumnIs("postId", Int(id))) == |imageList.value| by {
        BoundImagesAfterInsert(before, old(nextImageId), id, imageList.value);
      }
      var found := AwardExp(userId, Ledger.PostReward);
      if !found {
        return ServerError;
      }
      return Success("POST_REGISTER_SUCCESS", Some(id));
    }

    /** `PostImage.destroy({where: {postId}})`: remove every image row bound to the post. */
    method DestroyPostImages(postId: int)
      requires Valid()
      modifies this
      ensures Valid()
      ensures images == Without(old(images), ColumnIs("postId", Int(postId)))
      ensures CountWhere(images, ColumnIs("postId", Int(postId))) == 0
      ensures posts == old(posts) && comments == old(comments) && replies == old(replies)
      ensures users == old(users) && profiles == old(profiles)
      ensures nextPostId == old(nextPostId) && nextImageId == old(nextImageId)
      ensures nextCommentId == old(nextCommentId) && nextReplyId == old(nextReplyId)
    {
      images := Without(images, ColumnIs("postId", Int(postId)));
      NoneMatch(images, ColumnIs("postId", Int(postId)));
    }

    /** The field-spread loop of updatePost followed by `post.save()`. */
    method SavePost(postId: int, body: Row)
      requires Valid() && postId in posts
      modifies this
      ensures Valid()
      ensures posts == old(posts)[postId := Spread(old(posts)[postId], body, "postId")]
      ensures images == old(images) && comments == old(comments) && replies == old(replies)
      ensures users == old(users) && profiles == old(profiles)
      ensures nextPostId == old(nextPostId) && nextImageId == old(nextImageId)
      ensures nextCommentId == old(nextCommentId) && nextReplyId == old(nextReplyId)
    {
      var row := CopyFields(posts[postId], body, "postId");
      posts := posts[postId := row];
    }

    /** updatePost: copy every request key except `postId` onto the post, then, if `images` is
        truthy, destroy the post's image rows and insert the parsed list itself, so that no image
        is left bound to the post. `parsedImages` is the
        result of `JSON.parse(req.body.images)`, `None` when that is not an array. */
    method UpdatePost(postId: int, body: Row, parsedImages: Option<seq<Value>>) returns (res: Response)
      requires Valid()
      modifies this
      ensures Valid()
      ensures comments == old(comments) && replies == old(replies) && users == old(users) && profiles == old(profiles)
      ensures nextPostId == old(nextPostId) && nextCommentId == old(nextCommentId) && nextReplyId == old(nextReplyId)
      // 404 exactly when the detail read finds no post
      ensures res.NotFound? <==> GetPostById(old(View()), postId).None?
      ensures postId !in old(posts) ==>
                res == NotFound("POST_NOT_FOUND") && posts == old(posts) && images == old(images) && nextImageId == old(nextImageId)
      ensures postId in old(posts) ==>
                posts == old(posts)[postId := Spread(old(posts)[postId], body, "postId")]
      ensures postId in old(posts) && !ReplacesImages(body) ==>
                res == Success("POST_UPDATE_SUCCESS", None) && images == old(images) && nextImageId == old(nextImageId)
      ensures postId in old(posts) && ReplacesImages(body) && parsedImages.None? ==>
                res == ServerError && images == old(images) && nextImageId == old(nextImageId)
      // the post's images are destroyed and the new rows are bound to no post
      ensures postId in old(posts) && ReplacesImages(body) && parsedImages.Some? ==>
                && res == Success("POST_UPDATE_SUCCESS", None)
                && images == ReplaceImagesAsWritten(old(images), old(nextImageId), postId, parsedImages.value)
                && nextImageId == old(nextImageId) + |parsedImages.value|
                && |ImagesOf(View(), postId)| == 0
    {
      if postId !in posts {
        return NotFound("POST_NOT_FOUND");
      }
      SavePost(postId, body);
      if ReplacesImages(body) {
        if parsedImages.None? {
          return ServerError;
        }
        DestroyPostImages(postId);
        CreateRawImages(parsedImages.value);
        assert CountWhere(images, ColumnIs("postId", Int(postId))) == 0 by {
          AsWrittenUnbindsImages(old(images), old(nextImageId), postId, parsedImages.value);
        }
      }
      return Success("POST_UPDATE_SUCCESS", None);
    }


    /** updatePost as evidently intended: the same steps, except that the rows inserted after
        the destroy are the postId-bound rows built from the parsed list. `parsedImages` is the
        result of `JSON.parse(req.body.images)`, `None` when that is not an array. */
    method UpdatePostIntended(postId: int, body: Row, parsedImages: Option<seq<Value>>) returns (res: Response)
      requires Valid()
      modifies this
      ensures Valid()
      ensures comments == old(comments) && replies == old(replies) && users == old(users) && profiles == old(profiles)
      ensures nextPostId == old(nextPostId) && nextCommentId == old(nextCommentId) && nextReplyId == old(nextReplyId)
      // 404 exactly when the detail read finds no post
      ensures res.NotFound? <==> GetPostById(old(View()), postId).None?
      ensures postId !in old(posts) ==>
                res == NotFound("POST_NOT_FOUND") && posts == old(posts) && images == old(images) && nextImageId == old(nextImageId)
      ensures postId in old(posts) ==>
                posts == old(posts)[postId := Spread(old(posts)[postId], body, "postId")]
      ensures postId in old(posts) && !ReplacesImages(body) ==>
                res == Success("POST_UPDATE_SUCCESS", None) && images == old(images) && nextImageId == old(nextImageId)
      ensures postId in old(posts) && ReplacesImages(body) && parsedImages.None? ==>
                res == ServerError && images == old(images) && nextImageId == old(nextImageId)
      // the post's image set becomes exactly the submitted list
      ensures postId in old(posts) && ReplacesImages(body) && parsedImages.Some? ==>
                && res == Success("POST_UPDATE_SUCCESS", None)
                && images == ReplaceImages(old(images), old(nextImageId), postId, parsedImages.value)
                && nextImageId == old(nextImageId) + |parsedImages.value|
                && |ImagesOf(View(), postId)| == |parsedImages.value|
    {
      if postId !in posts {
        return NotFound("POST_NOT_FOUND");
      }
      SavePost(postId, body);
      if ReplacesImages(body) {
        if parsedImages.None? {
          return ServerError;
        }
        DestroyPostImages(postId);
        ghost var kept := images;
        CreateImages(postId, parsedImages.value);
        assert CountWhere(images, ColumnIs("postId", Int(postId))) == |parsedImages.value| by {
          BoundImagesAfterInsert(kept, old(nextImageId), postId, parsedImages.value);
        }
      }
      return Success("POST_UPDATE_SUCCESS", None);
    }

    /** deletePost: remove the row with that id, if any; always reports success. */
    method DeletePost(postId: int) returns (res: Response)
      requires Valid()
      modifies this
      ensures Valid()
      ensures res == Success("POST_DELETE_SUCCESS", None)
      ensures posts == old(posts) - {postId}
      ensures GetPostById(View(), postId).None?
      ensures images == old(images) && comments == old(comments) && replies == old(replies)
      ensures users == old(users) && profiles == old(profiles)
      ensures nextPostId == old(nextPostId) && nextImageId == old(nextImageId)
      ensures nextCommentId == old(nextCommentId) && nextReplyId == old(nextReplyId)
    {
      posts := posts - {postId};
      return Success("POST_DELETE_SUCCESS", None);
    }

    /** registerPostComment: create the comment, then award its author 50 exp. */
    method RegisterPostComment(postId: int, userId: int, comment: Value, now: nat) returns (res: Response)
      requires Valid()
      modifies this
      ensures Valid()
      ensures comments == old(comments)[old(nextCommentId) := CommentRow(old(nextCommentId), postId, userId, comment, now)]
      ensures nextCommentId == old(nextCommentId) + 1
      ensures posts == old(posts) && images == old(images) && replies == old(replies) && users == old(users)
      ensures nextPostId == old(nextPostId) && nextImageId == old(nextImageId) && nextReplyId == old(nextReplyId)
      ensures userId !in old(profiles) ==> res == ServerError && profiles == old(profiles)
      ensures userId in old(profiles) ==>
                && res == Success("POST_COMMENT_REGISTER_SUCCESS", Some(old(nextCommentId)))
                && profiles == old(profiles)[userId := Ledger.Award(old(profiles)[userId], Ledger.CommentReward)]
    {
      var id := nextCommentId;
      comments := comments[id := CommentRow(id, postId, userId, comment, now)];
      nextCommentId := nextCommentId + 1;
      var found := AwardExp(userId, Ledger.CommentReward);
      if !found {
        return ServerError;
      }
      return Success("POST_COMMENT_REGISTER_SUCCESS", Some(id));
    }

    /** updatePostComment: copy every request key except `postCommentId` onto the comment. */
    method UpdatePostComment(commentId: int, body: Row) returns (res: Response)
      requires Valid()
      modifies this
      ensures Valid()
      ensures posts == old(posts) && images == old(images) && replies == old(replies)
      ensures users == old(users) && profiles == old(profiles)
      ensures nextPostId == old(nextPostId) && nextImageId == old(nextImageId)
      ensures nextCommentId == old(nextCommentId) && nextReplyId == old(nextReplyId)
      ensures commentId !in old(comments) ==> res == NotFound("POST_COMMENT_NOT_FOUND") && comments == old(comments)
      ensures commentId in old(comments) ==>
                && res == Success("POST_COMMENT_UPDATE_SUCCESS", None)
                && comments == old(comments)[commentId := Spread(old(comments)[commentId], body, "postCommentId")]
    {
      if commentId !in comments {
        return NotFound("POST_COMMENT_NOT_FOUND");
      }
      var row := CopyFields(comments[commentId], body, "postCommentId");
      comments := comments[commentId := row];
      return Success("POST_COMMENT_UPDATE_SUCCESS", None);
    }

    /** deletePostComment: remove the row with that id, if any; always reports success. */
    method DeletePostComment(commentId: int) returns (res: Response)
      requires Valid()
      modifies this
      ensures Valid()
      ensures res == Success("POST_COMMENT_DELETE_SUCCESS", None)
      ensures comments == old(comments) - {commentId}
      ensures posts == old(posts) && images == old(images) && replies == old(replies)
      ensures users == old(users) && profiles == old(profiles)
      ensures nextPostId == old(nextPostId) && nextImageId == old(nextImageId)
      ensures nextCommentId == old(nextCommentId) && nextReplyId == old(nextReplyId)
    {
      comments := comments - {commentId};
      return Success("POST_COMMENT_DELETE_SUCCESS", None);
    }

    /** registerPostCommentReply: create the reply; no profile changes. */
    method RegisterPostCommentReply(commentId: int, userId: int, content: Value, now: nat) returns (res: Response)
      requires Valid()
      modifies this
      ensures Valid()
      ensures res == Success("POST_COMMENT_REPLY_REGISTER_SUCCESS", Some(old(nextReplyId)))
      ensures replies == old(replies)[old(nextReplyId) := ReplyRow(old(nextReplyId), commentId, userId, content, now)]
      ensures nextReplyId == old(nextReplyId) + 1
      ensures profiles == old(profiles)
      ensures posts == old(posts) && images == old(images) && comments == old(comments) && users == old(users)
      ensures nextPostId == old(nextPostId) && nextImageId == old(nextImageId) && nextCommentId == old(nextCommentId)
    {
      var id := nextReplyId;
      replies := replies[id := ReplyRow(id, commentId, userId, content, now)];
      nextReplyId := nextReplyId + 1;
      return Success("POST_COMMENT_REPLY_REGISTER_SUCCESS", Some(id));
    }

    /** updatePostCommentReply: copy every request key except `postCommentReplyId` onto the reply. */
    method UpdatePostCommentReply(replyId: int, body: Row) returns (res: Response)
      requires Valid()
      modifies this
      ensures Valid()
      ensures posts == old(posts) && images == old(images) && comments == old(comments)
      ensures users == old(users) && profiles == old(profiles)
      ensures nextPostId == old(nextPostId) && nextImageId == old(nextImageId)
      ensures nextCommentId == old(nextCommentId) && nextReplyId == old(nextReplyId)
      ensures replyId !in old(replies) ==> res == NotFound("POST_COMMENT_REPLY_NOT_FOUND") && replies == old(replies)
      ensures replyId in old(replies) ==>
                && res == Success("POST_COMMENT_REPLY_UPDATE_SUCCESS", None)
                && replies == old(replies)[replyId := Spread(old(replies)[replyId], body, "postCommentReplyId")]
    {
      if replyId !in replies {
        return NotFound("POST_COMMENT_REPLY_NOT_FOUND");
      }
      var row := CopyFields(replies[replyId], body, "postCommentReplyId");
      replies := replies[replyId := row];
      return Success("POST_COMMENT_REPLY_UPDATE_SUCCESS", None);
    }

    /** deletePostCommentReply: remove the row with that id, if any; always reports success. */
    method DeletePostCommentReply(replyId: int) returns (res: Response)
      requires Valid()
      modifies this
      ensures Valid()
      ensures res == Success("POST_COMMENT_REPLY_DELETE_SUCCESS", None)
      ensures replies == old(replies) - {replyId}
      ensures posts == old(posts) && images == old(images) && comments == old(comments)
      ensures users == old(users) && profiles == old(profiles)
      ensures nextPostId == old(nextPostId) && nextImageId == old(nextImageId)
      ensures nextCommentId == old(nextCommentId) && nextReplyId == old(nextReplyId)
    {
      replies := replies - {replyId};
      return Success("POST_COMMENT_REPLY_DELETE_SUCCESS", None);
    }
  }
}
