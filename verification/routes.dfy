/**
 * The ten request handlers of the service. Each takes its validated inputs
 * (a failed validation is the 422 the framework answers before the handler
 * runs), calls the repository and turns a None or False into a 404.
 */
module Routes {
  import opened Wrappers
  import opened Db
  import opened Schemas
  import opened Repository
  import opened Http

  /** `skip: int = Query(0, ge=0)` and `limit: int = Query(10, ge=1, le=100)`. */
  predicate ValidPage(skip: int, limit: int) {
    0 <= skip && 1 <= limit <= 100
  }

  /** A post as `PostResponse` returns it, with the comments its relationship loads. */
  function PostView(store: Store, row: PostRow): PostResponse
    reads store
    requires store.Valid()
  {
    FullView(row, store.GetCommentsForPost(row.id))
  }

  /** `POST /posts`. */
  method CreatePost(store: Store, input: PostCreate, now: Timestamp) returns (resp: Response)
    requires store.Valid()
    modifies store
    ensures store.Valid()
    ensures !input.Valid() ==> resp == Response(UnprocessableEntity, NoBody) && unchanged(store)
    ensures input.Valid() ==>
      var id := NextRowId(old(store.postOrder));
      var row := PostRow(id, input.title, input.content, input.author, now, None);
      && id !in old(store.posts)
      && store.posts == old(store.posts)[id := row]
      && store.comments == old(store.comments)
      && resp == Response(Created, PostBody(PostView(store, row)))
    ensures old(store.Linked()) ==> store.Linked()
    ensures old(store.Linked()) && resp.body.PostBody? ==> resp.body.post.comments == []
  {
    if !input.Valid() {
      return Response(UnprocessableEntity, NoBody);
    }
    var row := store.CreatePost(input, now);
    if old(store.Linked()) {
      assert store.GetCommentsCountForPost(row.id) == 0;
    }
    resp := Response(Created, PostBody(PostView(store, row)));
  }

  /** `GET /posts`: one list item per post of the page, each with its comment count. */
  method GetPosts(store: Store, skip: int, limit: int) returns (resp: Response)
    requires store.Valid()
    ensures !ValidPage(skip, limit) ==> resp == Response(UnprocessableEntity, NoBody)
    ensures ValidPage(skip, limit) ==>
      var posts := store.GetPosts(skip, limit);
      && resp.status == Ok && resp.body.ListItemsBody?
      && |resp.body.items| == |posts|
      && forall i :: 0 <= i < |posts| ==>
           resp.body.items[i] == ListItemView(posts[i], store.GetCommentsCountForPost(posts[i].id))
  {
    if !ValidPage(skip, limit) {
      return Response(UnprocessableEntity, NoBody);
    }
    var posts := store.GetPosts(skip, limit);
    var items: seq<PostListItem> := [];
    for i := 0 to |posts|
      invariant |items| == i
      invariant forall j :: 0 <= j < i ==> items[j] == ListItemView(posts[j], CommentCount(store.comments, posts[j].id))
    {
      var post := posts[i];
      var count := store.GetCommentsCountForPost(post.id);
      var item := ListItemView(post, count);
      items := items + [item];
    }
    resp := Response(Ok, ListItemsBody(items));
  }

  /** `GET /posts/{post_id}`. */
  method GetPost(store: Store, postId: int) returns (resp: Response)
    requires store.Valid()
    ensures resp.status == NotFound <==> postId !in store.posts
    ensures postId !in store.posts ==> resp == Response(NotFound, NoBody)
    ensures postId in store.posts ==> resp == Response(Ok, PostBody(PostView(store, store.posts[postId])))
  {
    var found := store.GetPost(postId);
    if found.None? {
      return Response(NotFound, NoBody);
    }
    resp := Response(Ok, PostBody(PostView(store, found.value)));
  }

  /** `PUT /posts/{post_id}`. */
  method UpdatePost(store: Store, postId: int, u: PostUpdate, now: Timestamp) returns (resp: Response)
    requires store.Valid()
    modifies store
    ensures store.Valid()
    ensures !u.Valid() ==> resp == Response(UnprocessableEntity, NoBody) && unchanged(store)
    ensures u.Valid() && postId !in old(store.posts) ==> resp == Response(NotFound, NoBody) && unchanged(store)
    ensures u.Valid() && postId in old(store.posts) && u.HasNull() ==>
      resp == Response(InternalServerError, NoBody) && unchanged(store)
    ensures u.Valid() && postId in old(store.posts) && !u.HasNull() ==>
      var row := UpdatedPost(old(store.posts)[postId], u, now);
      && store.posts == old(store.posts)[postId := row]
      && store.comments == old(store.comments)
      && resp == Response(Ok, PostBody(PostView(store, row)))
    ensures old(store.Linked()) ==> store.Linked()
  {
    if !u.Valid() {
      return Response(UnprocessableEntity, NoBody);
    }
    var r := store.UpdatePost(postId, u, now);
    match r
    case Missing =>
      resp := Response(NotFound, NoBody);
    case NotNullViolation =>
      resp := Response(InternalServerError, NoBody);
    case Updated(row) =>
      resp := Response(Ok, PostBody(PostView(store, row)));
  }

  /** `DELETE /posts/{post_id}`: the post goes with its comments. */
  method DeletePost(store: Store, postId: int) returns (resp: Response)
    requires store.Valid()
    modifies store
    ensures store.Valid()
    ensures postId !in old(store.posts) ==> resp == Response(NotFound, NoBody) && unchanged(store)
    ensures postId in old(store.posts) ==>
      && resp == Response(NoContent, NoBody)
      && store.posts == old(store.posts) - {postId}
      && store.comments == Cascade(old(store.comments), postId)
    ensures old(store.Linked()) ==> store.Linked()
  {
    var deleted := store.DeletePost(postId);
    if !deleted {
      return Response(NotFound, NoBody);
    }
    resp := Response(NoContent, NoBody);
  }

  /** `POST /posts/{post_id}/comments`: only under a post that exists. */
  method CreateComment(store: Store, postId: int, input: CommentCreate, now: Timestamp) returns (resp: Response)
    requires store.Valid()
    modifies store
    ensures store.Valid()
    ensures !input.Valid() ==> resp == Response(UnprocessableEntity, NoBody) && unchanged(store)
    ensures input.Valid() && postId !in old(store.posts) ==> resp == Response(NotFound, NoBody) && unchanged(store)
    ensures input.Valid() && postId in old(store.posts) ==>
      var id := NextRowId(old(store.commentOrder));
      var row := CommentRow(id, input.content, input.author, postId, now, None);
      && id !in old(store.comments)
      && store.comments == old(store.comments)[id := row]
      && store.posts == old(store.posts)
      && resp == Response(Created, CommentBody(CommentView(row)))
    ensures old(store.Linked()) ==> store.Linked()
  {
    if !input.Valid() {
      return Response(UnprocessableEntity, NoBody);
    }
    var post := store.GetPost(postId);
    if post.None? {
      return Response(NotFound, NoBody);
    }
    var row := store.CreateComment(input, postId, now);
    resp := Response(Created, CommentBody(CommentView(row)));
  }

  /** `GET /posts/{post_id}/comments`: only for a post that exists. */
  method GetCommentsForPost(store: Store, postId: int) returns (resp: Response)
    requires store.Valid()
    ensures postId !in store.posts ==> resp == Response(NotFound, NoBody)
    ensures postId in store.posts ==> resp == Response(Ok, CommentsBody(CommentViews(store.GetCommentsForPost(postId))))
  {
    var post := store.GetPost(postId);
    if post.None? {
      return Response(NotFound, NoBody);
    }
    var comments := store.GetCommentsForPost(postId);
    resp := Response(Ok, CommentsBody(CommentViews(comments)));
  }

  /** `GET /comments/{comment_id}`. */
  method GetComment(store: Store, commentId: int) returns (resp: Response)
    requires store.Valid()
    ensures resp.status == NotFound <==> commentId !in store.comments
    ensures commentId !in store.comments ==> resp == Response(NotFound, NoBody)
    ensures commentId in store.comments ==> resp == Response(Ok, CommentBody(CommentView(store.comments[commentId])))
  {
    var found := store.GetComment(commentId);
    if found.None? {
      return Response(NotFound, NoBody);
    }
    resp := Response(Ok, CommentBody(CommentView(found.value)));
  }

  /** `PUT /comments/{comment_id}`. */
  method UpdateComment(store: Store, commentId: int, u: CommentUpdate, now: Timestamp) returns (resp: Response)
    requires store.Valid()
    modifies store
    ensures store.Valid()
    ensures !u.Valid() ==> resp == Response(UnprocessableEntity, NoBody) && unchanged(store)
    ensures u.Valid() && commentId !in old(store.comments) ==> resp == Response(NotFound, NoBody) && unchanged(store)
    ensures u.Valid() && commentId in old(store.comments) && u.HasNull() ==>
      resp == Response(InternalServerError, NoBody) && unchanged(store)
    ensures u.Valid() && commentId in old(store.comments) && !u.HasNull() ==>
      var row := UpdatedComment(old(store.comments)[commentId], u, now);
      && store.comments == old(store.comments)[commentId := row]
      && store.posts == old(store.posts)
      && resp == Response(Ok, CommentBody(CommentView(row)))
    ensures store.Linked() == old(store.Linked())
  {
    if !u.Valid() {
      return Response(UnprocessableEntity, NoBody);
    }
    var r := store.UpdateComment(commentId, u, now);
    match r
    case Missing =>
      resp := Response(NotFound, NoBody);
    case NotNullViolation =>
      resp := Response(InternalServerError, NoBody);
    case Updated(row) =>
      resp := Response(Ok, CommentBody(CommentView(row)));
  }

  /** `DELETE /comments/{comment_id}`. */
  method DeleteComment(store: Store, commentId: int) returns (resp: Response)
    requires store.Valid()
    modifies store
    ensures store.Valid()
    ensures commentId !in old(store.comments) ==> resp == Response(NotFound, NoBody) && unchanged(store)
    ensures commentId in old(store.comments) ==>
      && resp == Response(NoContent, NoBody)
      && store.comments == old(store.comments) - {commentId}
      && store.posts == old(store.posts)
    ensures old(store.Linked()) ==> store.Linked()
  {
    var deleted := store.DeleteComment(commentId);
    if !deleted {
      return Response(NotFound, NoBody);
    }
    resp := Response(NoContent, NoBody);
  }
}
