/**
 * Request sequences against an empty database: a post and a comment are
 * created, read back, updated and removed together; pagination bounds are
 * checked at their edges.
 */
module Walkthrough {
  import opened Wrappers
  import opened Db
  import opened Schemas
  import opened Repository
  import opened Http
  import Routes

  method CreateAndRead() {
    var store := new Store();
    var created := Routes.CreatePost(store, PostCreate("A", "B", "C"), 1);
    assert created.status == Created && created.body.post.id == 1;
    assert created.body.post.comments == [];

    var comment := Routes.CreateComment(store, 1, CommentCreate("x", "y"), 2);
    assert comment == Response(Created, CommentBody(CommentResponse(1, "x", "y", 1, 2)));

    var missing := Routes.CreateComment(store, 7, CommentCreate("x", "y"), 3);
    assert missing.status == NotFound && |store.comments| == 1;
  }

  method ReadNested() {
    var store := new Store();
    var created := Routes.CreatePost(store, PostCreate("A", "B", "C"), 1);
    var comment := Routes.CreateComment(store, 1, CommentCreate("x", "y"), 2);
    var fetched := Routes.GetPost(store, 1);
    var row := CommentRow(1, "x", "y", 1, 2, None);
    assert store.comments == map[1 := row] && ChildKeys(store.comments, 1) == {1};
    assert |store.GetCommentsForPost(1)| == store.GetCommentsCountForPost(1) == 1;
    assert store.GetCommentsForPost(1) == [row];
    assert store.posts[1] == PostRow(1, "A", "B", "C", 1, None);
    assert |CommentViews([row])| == 1 && CommentViews([row])[0] == CommentResponse(1, "x", "y", 1, 2);
    assert CommentViews([row]) == [CommentResponse(1, "x", "y", 1, 2)];
    assert fetched == Response(Ok, PostBody(PostResponse(1, "A", "B", "C", 1, None, [CommentResponse(1, "x", "y", 1, 2)])));
  }

  method DeleteCascades() {
    var store := new Store();
    var created := Routes.CreatePost(store, PostCreate("A", "B", "C"), 1);
    var comment := Routes.CreateComment(store, 1, CommentCreate("x", "y"), 2);
    assert |store.comments| == 1;

    var deleted := Routes.DeletePost(store, 1);
    assert deleted.status == NoContent && store.posts == map[];
    assert store.comments == map[];

    var fetched := Routes.GetPost(store, 1);
    assert fetched.status == NotFound;
    var listed := Routes.GetCommentsForPost(store, 1);
    assert listed.status == NotFound;
    deleted := Routes.DeletePost(store, 1);
    assert deleted.status == NotFound;
  }

  method UpdateAndPaginate() {
    var store := new Store();
    var created := Routes.CreatePost(store, PostCreate("A", "B", "C"), 1);

    var renamed := Routes.UpdatePost(store, 1, PostUpdate(title := Given("A2")), 4);
    assert renamed.status == Ok && renamed.body.post.title == "A2" && renamed.body.post.content == "B";
    assert renamed.body.post.updatedAt == Some(4);
    var rejected := Routes.UpdatePost(store, 1, PostUpdate(title := Given("")), 5);
    assert rejected.status == UnprocessableEntity;
    var nulled := Routes.UpdatePost(store, 1, PostUpdate(author := Null), 6);
    assert nulled.status == InternalServerError && store.posts[1].author == "C";

    var page := Routes.GetPosts(store, -1, 10);
    assert page.status == UnprocessableEntity;
    page := Routes.GetPosts(store, 0, 0);
    assert page.status == UnprocessableEntity;
    page := Routes.GetPosts(store, 0, 101);
    assert page.status == UnprocessableEntity;
    page := Routes.GetPosts(store, 0, 100);
    ListedCount(store.posts, store.postOrder);
    assert store.postOrder == [1];
    assert page.status == Ok && |page.body.items| == 1 && page.body.items[0].title == "A2";
  }
}
