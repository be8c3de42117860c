/**
 * The older handler module `route.py`. Its `get_posts` lists summaries
 * rather than list items; its other nine handlers are those of `Routes`.
 */
module LegacyRoutes {
  import opened Db
  import opened Schemas
  import opened Repository
  import opened Http
  import Routes

  /** `GET /posts`: one summary (no content) per post of the page, each with its comment count. */
  method GetPosts(store: Store, skip: int, limit: int) returns (resp: Response)
    requires store.Valid()
    ensures !Routes.ValidPage(skip, limit) ==> resp == Response(UnprocessableEntity, NoBody)
    ensures Routes.ValidPage(skip, limit) ==>
      var posts := store.GetPosts(skip, limit);
      && resp.status == Ok && resp.body.SummariesBody?
      && |resp.body.summaries| == |posts|
      && forall i :: 0 <= i < |posts| ==>
           resp.body.summaries[i] == SummaryView(posts[i], store.GetCommentsCountForPost(posts[i].id))
  {
    if !Routes.ValidPage(skip, limit) {
      return Response(UnprocessableEntity, NoBody);
    }
    var posts := store.GetPosts(skip, limit);
    var summaries: seq<PostSummary> := [];
    for i := 0 to |posts|
      invariant |summaries| == i
      invariant forall j :: 0 <= j < i ==> summaries[j] == SummaryView(posts[j], CommentCount(store.comments, posts[j].id))
    {
      var post := posts[i];
      var count := store.GetCommentsCountForPost(post.id);
      var summary := SummaryView(post, count);
      summaries := summaries + [summary];
    }
    resp := Response(Ok, SummariesBody(summaries));
  }
}
