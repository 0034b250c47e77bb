# Post controller of a social-feed backend, modelled in Dafny

This project models the post controller of a social-feed backend. Users write posts that carry
images. Posts collect comments, and comments collect replies. Writing a post earns the author
100 experience points and writing a comment earns 50. A profile's level is always
`floor(exp / 1000)`.

The model has five modules:

- `Rows` (rows.dfy): stored values and rows. A row maps attribute names to values. The module
  also holds the field-spread loop of the three update handlers and the `attributes: [...]`
  projection of the `include` clauses.
- `IdOrder` and `Query` (query.dfy): what the handlers ask of a table:
  - `where` filters, including the `LIKE '%keyword%'` content search;
  - `count`;
  - ordering by `createdDate` descending;
  - `limit: req.body.limit || 1000000` and `offset: req.body.offset || 0`.
- `Ledger` (ledger.dfy): the exp/level update and the invariant it keeps.
- `Assembler` (assembler.dfy): the read handlers as pure functions of a snapshot of the tables:
  - the nested detail view of one post;
  - the three paged listings and their `totalCount`;
  - the comment and reply lists.
- `Store` (store.dfy): the class `FeedStore`. Its fields are the tables and the auto-increment
  counters. Its methods are the write handlers.
  - Each handler runs the same sequence of table writes as the controller.
  - Each handler stops at the same points as the controller. No write is rolled back, so a
    failure part-way leaves the earlier writes in place.
  - Every method keeps `Valid()`: ids lie below their counters, image rows point at post ids
    already handed out, and every profile is consistent.

Requests come in as parameters. The time (`new Date()`) is a `nat` parameter `now`.
`req.body.images` arrives already parsed: `None` when it is not an array.

Where the code and its specification disagree, the model follows the code:

- The update handlers copy every request key except the request's own id key (`postId`,
  `postCommentId`, `postCommentReplyId`). There is no allow-list, so a request key `id` is
  copied onto the row (`Rows.SpreadCopiesId`).
- `getPostById` answers a missing post with `null` and status 200, not with a not-found error.
  Here that is `GetPostById` returning `None`.
- A missing profile makes the scoring step throw, so the handler answers 500
  (`Response.ServerError`). The post or comment created before it stays.
- Replies earn no experience.
- Deletes report success whether or not a row was removed. They remove only the named row:
  images, comments and replies of a deleted post stay in their tables.
- Replacing a post's images is two separate writes, not one atomic step. `updatePost` inserts
  the parsed list itself, not the rows it builds with `postId`, so the post is left with no
  images. `Store.FeedStore.UpdatePost` models this as written. `Store.FeedStore.UpdatePostIntended`
  models the evident intent (see "Findings").

## Model

| member | source | states |
|---|---|---|
| Rows.Spread | app/controllers/post.controller.js:176-181 | every request key except the id key is written onto the row, every other attribute keeps its value, and the row gains exactly the request's other keys |
| Rows.Truthy | app/controllers/post.controller.js:184 | `if (req.body.images)`: null, `false`, `0` and `""` are falsy, every other value truthy |
| Rows.CopyFields | app/controllers/post.controller.js:176-181 | the key-by-key loop produces exactly `Spread` of the row and the request |
| Rows.SpreadCopiesId | app/controllers/post.controller.js:176-181 | a request key `id` overwrites the row's `id`, because only the request's id key is skipped |
| Rows.Project | app/controllers/post.controller.js:81-87 | a projected row has exactly the listed attributes the row has, with their stored values |
| Query.ContainsIffOccurs | app/controllers/post.controller.js:145-149 | the recursive substring test holds exactly when the keyword occurs at some position of the content |
| Query.EmptyKeywordEverywhere | app/controllers/post.controller.js:147 | the empty keyword (`'%%'`) is contained in every text |
| Query.Matches | app/controllers/post.controller.js:54-61 | a row satisfies `{column: value}` when it holds that value, and `LIKE '%kw%'` when its content is text containing `kw` (a NULL or non-text content never matches) |
| Query.CountWhere | app/controllers/post.controller.js:54-56 | `count({where})` is the number of rows satisfying the filter and never exceeds the table size |
| Query.CountEverything | app/controllers/post.controller.js:126 | `Post.count()` with no `where` counts every post |
| Query.Select | app/controllers/post.controller.js:58-61 | `findAll({where})` without `order` lists exactly the matching ids, each once, in ascending id order, as many as `count` reports |
| Query.Without | app/controllers/post.controller.js:191-193 | `destroy({where})` keeps exactly the rows that do not satisfy the filter, unchanged |
| Query.SortNewest | app/controllers/post.controller.js:114 | `order: [['createdDate', 'DESC']]` yields a permutation of the ids, newest first |
| Query.Stamp | app/controllers/post.controller.js:114 | the `createdDate` the ordering compares; a row without an integer one counts as oldest |
| Query.EffectiveLimit | app/controllers/post.controller.js:59 | `limit || 1000000`: a missing or zero limit becomes 1000000, any other limit is kept |
| Query.EffectiveOffset | app/controllers/post.controller.js:60 | `offset || 0`: a missing offset becomes 0 |
| Query.Page | app/controllers/post.controller.js:59-60 | a page skips `offset` entries, holds at most `limit`, has exactly `min(limit, length - offset)` entries when the offset is in range, and entry `i` is entry `offset + i` of the list |
| Query.DefaultPageIsWhole | app/controllers/post.controller.js:59-60 | with neither limit nor offset, a list of at most one million entries is returned whole |
| Ledger.Award | app/controllers/post.controller.js:29-30 | exp grows by the weight, level becomes `floor(exp / 1000)`, every other profile attribute is unchanged, and a consistent profile stays consistent |
| Ledger.AwardAll | app/controllers/post.controller.js:29-30 | the profile after a sequence of scoring events, applied in order; exp stays an integer |
| Ledger.LedgerStaysConsistent | app/controllers/post.controller.js:29-30 | after any sequence of scoring events the level is still `floor(exp / 1000)` and exp has grown by exactly the sum of the weights |
| Ledger.LedgerMonotone | app/controllers/post.controller.js:231-232 | scoring never lowers exp or level |
| Assembler.UserView | app/controllers/post.controller.js:82-83 | an author appears exactly when the post's `userId` names a user; it holds exactly the user's `id` and `name` attributes, with the user's values |
| Assembler.OwnerOf | app/controllers/post.controller.js:82-83 | the user a row points at through `userId`, the join key of the author include |
| Assembler.AuthorView | app/controllers/post.controller.js:81-87 | the author exists exactly when the user does, and holds exactly the user's `id` and `name`; it carries a profile exactly when the user has one, holding exactly the profile's `id` and `avatar`, with the stored values |
| Assembler.ImagesOf | app/controllers/post.controller.js:89 | the post's images are the stored image rows bound to it, one per bound row, each bound to it |
| Assembler.CommentIdsOf | app/controllers/post.controller.js:121-122 | the comment ids listed are exactly the ids of the post's comments |
| Assembler.RepliesOf | app/controllers/post.controller.js:92-94 | a comment's replies are the stored reply rows bound to it, one per bound row, each bound to it |
| Assembler.CommentDetailOf | app/controllers/post.controller.js:91-101 | a comment is shown with its own row, its replies and its author `{id, name}` with profile `{id, avatar}` |
| Assembler.CommentsOf | app/controllers/post.controller.js:91-101 | one entry per comment of the post, each bound to it, in ascending id order, each with its own row, its replies and its projected author |
| Assembler.GetPostById | app/controllers/post.controller.js:77-108 | `None` exactly when the post is missing; otherwise the post's own row, its projected author, its images and its comments, each bound to it and counted exactly |
| Assembler.UserSummary | app/controllers/post.controller.js:62-67 | a getPostByUser entry carries the post's own row, its images and the ids of its comments |
| Assembler.FeedSummary | app/controllers/post.controller.js:115-123 | a getAllPosts entry carries the post's own row, its author `{id, name}`, its images and the ids of its comments |
| Assembler.FoundSummary | app/controllers/post.controller.js:139-144 | a searchPosts entry carries the post's own row, its author `{id, name}` and its images |
| Assembler.Summarize | app/controllers/post.controller.js:62-67 | each listing's entry has its own shape and carries the post's row and images, the comment ids where the shape lists them, and the author `{id, name}` where the shape includes it |
| Assembler.SummarizePage | app/controllers/post.controller.js:58-68 | the summaries of exactly one page of the ranked ids, `min(limit, length - offset)` of them, in that order |
| Assembler.UserOrder | app/controllers/post.controller.js:54-61 | exactly the user's posts, each once, in ascending id order, as many as `count` reports |
| Assembler.FeedOrder | app/controllers/post.controller.js:111-114 | every post exactly once, newest first |
| Assembler.SearchOrder | app/controllers/post.controller.js:135-149 | exactly the posts whose content contains the keyword, newest first, as many as the count |
| Assembler.GetPostByUser | app/controllers/post.controller.js:50-75 | exactly `min(limit, totalCount - offset)` entries, and none past the end; each is the user's own post at its paged position, with its images and comment ids; `totalCount` counts all the user's posts, whatever the paging |
| Assembler.GetAllPosts | app/controllers/post.controller.js:110-131 | exactly `min(limit, totalCount - offset)` entries, newest first, each at its paged position with its author `{id, name}`, images and comment ids; `totalCount` is the number of all posts |
| Assembler.SearchPosts | app/controllers/post.controller.js:133-162 | exactly `min(limit, totalCount - offset)` matching posts, newest first, each at its paged position with its author `{id, name}` and images; `totalCount` counts every matching post, whatever the paging |
| Assembler.SearchOrderMatches | app/controllers/post.controller.js:145-149 | every ranked search id names a post whose content contains the keyword |
| Assembler.SearchResultsMatch | app/controllers/post.controller.js:145-149 | every post a search returns contains the keyword |
| Assembler.SearchFindsEveryMatch | app/controllers/post.controller.js:145-149 | every post containing the keyword is among the results of an unpaged search |
| Assembler.UnpagedIsWhole | app/controllers/post.controller.js:59-60 | with neither limit nor offset every ranked post is summarised |
| Assembler.UnpagedUserListingIsComplete | app/controllers/post.controller.js:54-71 | an unpaged getPostByUser returns as many posts as `totalCount` |
| Assembler.UnpagedFeedIsComplete | app/controllers/post.controller.js:111-127 | an unpaged getAllPosts returns every post |
| Assembler.UnpagedSearchIsComplete | app/controllers/post.controller.js:135-158 | an unpaged searchPosts returns as many posts as `totalCount` |
| Assembler.EmptyKeywordFindsAllText | app/controllers/post.controller.js:145-157 | the empty keyword matches exactly the posts with text content, so it counts every post when all have text |
| Assembler.GetPostCommentByPost | app/controllers/post.controller.js:269-278 | the stored comment rows bound to the post, one per bound row |
| Assembler.GetPostCommentReplyByPostComment | app/controllers/post.controller.js:336-345 | the stored reply rows bound to the comment, one per bound row |
| Store.ImageRows | app/controllers/post.controller.js:18-23 | one image row per submitted image under consecutive fresh ids; row `start + i` holds image `i` and the post id |
| Store.RawImageRows | app/controllers/post.controller.js:195 | inserting the raw list creates rows under fresh ids that carry neither the post id nor the image |
| Store.PostRow | app/controllers/post.controller.js:12-16 | the created post carries its id, its author, its content and `createdDate` = now |
| Store.CommentRow | app/controllers/post.controller.js:218-223 | the created comment carries its id, its author, the post it is bound to, its text and `createdDate` = now |
| Store.ReplyRow | app/controllers/post.controller.js:293-298 | the created reply carries its id, its author, the comment it is bound to, its text and `createdDate` = now |
| Store.ReplacesImages | app/controllers/post.controller.js:184 | the image set is replaced exactly when the request has a truthy `images` |
| Store.ReplaceImagesAsWritten | app/controllers/post.controller.js:191-195 | the image table as written: the post's rows destroyed, every other row kept, and one row bound to no post under each new id |
| Store.ReplaceImages | app/controllers/post.controller.js:186-193 | the intended image table: the post's rows destroyed, every other row kept, and the post's new rows under the new ids |
| Store.RawImageRowsKeepInvariant | app/controllers/post.controller.js:195 | inserting unbound rows keeps ids below the counter and image post ids below the post counter |
| Store.ImageRowsBound | app/controllers/post.controller.js:18-21 | every created image row is bound to its post |
| Store.BoundImagesAfterInsert | app/controllers/post.controller.js:18-23 | inserting a post's image rows under fresh ids raises the number of rows bound to it by exactly the number of images |
| Store.ImageRowsKeepInvariant | app/controllers/post.controller.js:18-23 | inserting image rows for an existing post keeps ids below the counter and image post ids below the post counter |
| Store.ReplaceImagesBindsExactly | app/controllers/post.controller.js:186-193 | after the intended replacement the rows bound to the post are exactly the new rows, one per submitted image |
| Store.ReplaceImagesExact | app/controllers/post.controller.js:186-193 | after the intended replacement exactly as many rows are bound to the post as images were submitted |
| Store.AsWrittenUnbindsImages | app/controllers/post.controller.js:191-195 | after the replacement as written, no image row is bound to the post, for any list of image names (scalar values) |
| Store.AsWrittenCounterexample | app/controllers/post.controller.js:184-195 | a post with one image, updated with one new image, ends with no image as written and with one under the intended replacement |
| Store.FeedStore.CreatePost | app/controllers/post.controller.js:12-16 | the post row is stored under the next post id with the author, content and creation time; no image is bound to the new id |
| Store.FeedStore.CreateImages | app/controllers/post.controller.js:18-23 | the post's image rows are added under the next image ids; nothing else changes |
| Store.FeedStore.CreateRawImages | app/controllers/post.controller.js:195 | one row bound to no post is added per parsed entry under the next image ids; nothing else changes |
| Store.FeedStore.AwardExp | app/controllers/post.controller.js:25-31 | the author's profile is awarded the weight if it exists, and nothing changes otherwise |
| Store.FeedStore.RegisterPost | app/controllers/post.controller.js:10-37 | the post is created and readable; then either 500 with only the post kept (images not an array), or the images bound to the post and counted exactly, then either 500 (no profile) or success with the post id and +100 exp |
| Store.FeedStore.DestroyPostImages | app/controllers/post.controller.js:191-193 | every image row bound to the post is removed and no other row |
| Store.FeedStore.SavePost | app/controllers/post.controller.js:176-182 | the post becomes `Spread` of itself and the request, skipping `postId` |
| Store.FeedStore.UpdatePost | app/controllers/post.controller.js:164-203 | 404 exactly when the post is missing, with nothing changed; otherwise the spread is saved; then, when `images` is truthy, either 500 (not an array) or the post's images destroyed and one unbound row inserted per parsed entry, leaving the post with no image |
| Store.FeedStore.UpdatePostIntended | app/controllers/post.controller.js:164-203 | as `UpdatePost`, except that when the images are replaced, the post's image set becomes exactly the submitted list |
| Store.FeedStore.DeletePost | app/controllers/post.controller.js:205-215 | the post row is gone, the detail read returns `None`, nothing else changes, and the answer is success |
| Store.FeedStore.RegisterPostComment | app/controllers/post.controller.js:217-240 | the comment is stored under the next comment id; then either 500 (no profile, comment kept) or success with the id and +50 exp |
| Store.FeedStore.UpdatePostComment | app/controllers/post.controller.js:242-267 | 404 exactly when the comment is missing; otherwise the comment becomes its spread, skipping `postCommentId` |
| Store.FeedStore.DeletePostComment | app/controllers/post.controller.js:280-290 | the comment row is gone, nothing else changes, and the answer is success |
| Store.FeedStore.RegisterPostCommentReply | app/controllers/post.controller.js:292-307 | the reply is stored under the next reply id, success with that id, and no profile changes |
| Store.FeedStore.UpdatePostCommentReply | app/controllers/post.controller.js:309-334 | 404 exactly when the reply is missing; otherwise the reply becomes its spread, skipping `postCommentReplyId` |
| Store.FeedStore.DeletePostCommentReply | app/controllers/post.controller.js:347-357 | the reply row is gone, nothing else changes, and the answer is success |

## Left out

- `registerPostImages` (lines 39-48) is not modelled: it calls `PostImage.created`, which does not exist, so it can only fail.
- Routing, authentication and the HTTP layer are not modelled. A response is reduced to 200/404/500 and the `result`/`data` fields; the 500 message text is dropped.
- Storage faults are not modelled. Every `create`, `save`, `destroy` and query here succeeds. The only 500s are the ones the handler code itself throws: images that are not an array, and a missing profile.
- `new Date()` is the `now` parameter. `JSON.parse(req.body.images)` is done by the caller: `parsedImages` is `None` when the text does not parse to an array.
- `console.log(data.data)` in getPostByUser is not modelled.
- The ORM drops request keys that are not columns, and it decides what happens when `id` is rewritten. The model keeps every copied key in the row and does not model the storage's reaction to a changed `id`.
- Concurrency is not modelled. Two requests scoring the same profile can lose an update, because the read-modify-write is not atomic. Each handler here runs alone.
- SQL `LIKE` is modelled as plain substring search. Not modelled: `%` and `_` inside the keyword, case-insensitive collations, and an absent keyword becoming `'%undefined%'`.
- Query.EffectiveLimit: limits and offsets are natural numbers, so negative or non-numeric values are not modelled.
- Query.SortNewest: posts with the same `createdDate` come back in no promised order. A post without an integer `createdDate` sorts as the oldest, which stands in for the database's NULL ordering.
- Nested `include` lists (images, comments, replies) come back in ascending id order. The query sets no order for them.
- Query.Select: a `findAll` without `order` (getPostByUser, getPostCommentByPost, getPostCommentReplyByPostComment) is modelled as listing rows in ascending id order. The source promises no order, so which posts land on a page of getPostByUser is the model's choice, not the database's.
- Assembler.GetPostById: the `attributes` lists are modelled as exact projections. Columns the ORM adds by default (timestamps, foreign keys) are not modelled.
- `userId`, `postId` and the other request ids are integers here, so an absent `userId` (stored as NULL) is not modelled.
- Deletes do not cascade. Whether the schema cascades is not part of this model.
- Store.RawImageRows: the model assumes that bulk-inserting bare strings creates rows with no post id and no image. A schema that rejects NULL `postId` would instead fail after the destroy. Either way, the post is left with no images.
- Store.AsWrittenUnbindsImages: a parsed list is a list of scalar values (image names). An element that is itself an object, such as `{"postId": 7, "image": "a.png"}`, would be inserted as that row and be bound to post 7. Values here have no object form, so this case is not modelled.

## Findings

| source | as written | input that shows it | evidently intended | confidence | as-written member | corrected member |
|---|---|---|---|---|---|---|
| app/controllers/post.controller.js:184-195 | `PostImage.bulkCreate(imageList)` inserts the parsed list itself. The rows built at lines 186-189, which carry `postId`, are never used. After the destroy at 191-193, no image row is bound to the post. | post 7 owning image row 1, updated with `images: '["new.png"]'` | insert the `images` rows, so the post owns exactly the submitted images | high (not executed) | Store.AsWrittenUnbindsImages | Store.ReplaceImagesExact |

`Store.FeedStore.UpdatePost` replaces images as written (`Store.ReplaceImagesAsWritten`) and
ensures the post is left with no image. `Store.FeedStore.UpdatePostIntended` uses the corrected
replacement (`Store.ReplaceImages`) and ensures the post owns exactly the submitted images.
`Store.AsWrittenCounterexample` shows the concrete input from the table. The finding holds for
lists of image names. A list of objects carrying `postId` is not modelled (see "Left out").
