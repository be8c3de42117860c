/**
 * The repository layer: `PostRepository` and `CommentRepository`, each
 * operation one unit of work against the database. The database is the
 * class `Store`; reads are functions of its tables, writes are methods.
 */
module Repository {
  import opened Wrappers
  import opened Db
  import opened Schemas

  /** What `update_post` and `update_comment` come back with. */
  datatype Updated<T> =
    | Updated(row: T)     // the refreshed row
    | Missing             // no row has the id: the method returns None
    | NotNullViolation    // a field set to null reached a NOT NULL column: the commit raises

  /**
   * SQLite's `LIMIT limit OFFSET skip` over `rows`: skip the first `skip`
   * rows, then return at most `limit`. A negative offset counts as zero and
   * a negative limit as no limit.
   */
  function Page<T>(rows: seq<T>, skip: int, limit: int): (r: seq<T>)
    ensures 0 <= limit ==> |r| <= limit
    ensures var from := if skip < 0 then 0 else skip;
      && |r| == (if |rows| <= from then 0 else if 0 <= limit < |rows| - from then limit else |rows| - from)
      && forall i :: 0 <= i < |r| ==> from + i < |rows| && r[i] == rows[from + i]
  {
    var from := if skip < 0 then 0 else if |rows| < skip then |rows| else skip;
    var to := if limit < 0 || |rows| - from < limit then |rows| else from + limit;
    rows[from..to]
  }

  /** Two consecutive pages together are the page that spans both. */
  lemma PagesTile<T>(rows: seq<T>, skip: nat, first: nat, second: nat)
    ensures Page(rows, skip, first) + Page(rows, skip + first, second) == Page(rows, skip, first + second)
  {
  }

  /** The ORM object's attributes after one `setattr` per item, in turn. */
  function SetAll(attrs: map<Attr, Option<string>>, items: seq<(Attr, Option<string>)>): map<Attr, Option<string>>
    decreases |items|
  {
    if items == [] then attrs else SetAll(attrs[items[0].0 := items[0].1], items[1..])
  }

  /** After the `setattr` loop an attribute holds the last value written to it, or its old value. */
  lemma {:induction false} SetAllWritten(attrs: map<Attr, Option<string>>, items: seq<(Attr, Option<string>)>, a: Attr)
    requires a in attrs
    ensures a in SetAll(attrs, items)
    ensures SetAll(attrs, items)[a] == if Written(items, a).Some? then Written(items, a).value else attrs[a]
    decreases |items|
  {
    if items != [] {
      SetAllWritten(attrs[items[0].0 := items[0].1], items[1..], a);
    }
  }

  /** A column after an update: the supplied string, or the current value. */
  function Pick(f: Field, current: string): string {
    if f.Given? then f.value else current
  }

  /**
   * The post row `update_post` commits when the payload sets no field to
   * null: supplied fields replaced, omitted ones kept, and `updated_at`
   * stamped when some column's value changed.
   */
  function UpdatedPost(row: PostRow, u: PostUpdate, now: Timestamp): (r: PostRow)
    ensures r.id == row.id && r.createdAt == row.createdAt
    ensures u.title.Given? ==> r.title == u.title.value
    ensures u.content.Given? ==> r.content == u.content.value
    ensures u.author.Given? ==> r.author == u.author.value
    ensures !u.title.Given? ==> r.title == row.title
    ensures !u.content.Given? ==> r.content == row.content
    ensures !u.author.Given? ==> r.author == row.author
    ensures r.updatedAt == Some(now) || r.updatedAt == row.updatedAt
    ensures r.updatedAt != row.updatedAt ==> (r.title, r.content, r.author) != (row.title, row.content, row.author)
    ensures (r.title, r.content, r.author) != (row.title, row.content, row.author) ==> r.updatedAt == Some(now)
  {
    var title, content, author := Pick(u.title, row.title), Pick(u.content, row.content), Pick(u.author, row.author);
    var changed := title != row.title || content != row.content || author != row.author;
    PostRow(row.id, title, content, author, row.createdAt, if changed then Some(now) else row.updatedAt)
  }

  /** The comment row `update_comment` commits when the payload sets no field to null. */
  function UpdatedComment(row: CommentRow, u: CommentUpdate, now: Timestamp): (r: CommentRow)
    ensures r.id == row.id && r.postId == row.postId && r.createdAt == row.createdAt
    ensures u.content.Given? ==> r.content == u.content.value
    ensures u.author.Given? ==> r.author == u.author.value
    ensures !u.content.Given? ==> r.content == row.content
    ensures !u.author.Given? ==> r.author == row.author
    ensures r.updatedAt == Some(now) || r.updatedAt == row.updatedAt
    ensures r.updatedAt != row.updatedAt ==> (r.content, r.author) != (row.content, row.author)
    ensures (r.content, r.author) != (row.content, row.author) ==> r.updatedAt == Some(now)
  {
    var content, author := Pick(u.content, row.content), Pick(u.author, row.author);
    var changed := content != row.content || author != row.author;
    CommentRow(row.id, content, author, row.postId, row.createdAt, if changed then Some(now) else row.updatedAt)
  }

  /** Applying the same update again, at any later time, changes nothing, not even `updated_at`. */
  lemma UpdateIdempotent(row: PostRow, u: PostUpdate, first: Timestamp, second: Timestamp)
    ensures UpdatedPost(UpdatedPost(row, u, first), u, second) == UpdatedPost(row, u, first)
  {
  }

  /** The database: the `posts` and `comments` tables. */
  class Store {
    var posts: map<int, PostRow>
    var postOrder: seq<int>
    var comments: map<int, CommentRow>
    var commentOrder: seq<int>

    ghost predicate Valid()
      reads this
    {
      PostTable(posts, postOrder) && CommentTable(comments, commentOrder)
    }

    /** Every comment belongs to a stored post. SQLite does not enforce the declared foreign key by itself. */
    predicate Linked()
      reads this
    {
      ForeignKeys(posts, comments)
    }

    /** Freshly created, empty tables. */
    constructor ()
      ensures Valid() && Linked()
      ensures posts == map[] && postOrder == [] && comments == map[] && commentOrder == []
    {
      posts, postOrder := map[], [];
      comments, commentOrder := map[], [];
    }

    /** `get_post`: the row with this primary key, or None. */
    function GetPost(postId: int): (r: Option<PostRow>)
      reads this
      requires Valid()
      ensures r.Some? <==> postId in posts
      ensures r.Some? ==> r.value == posts[postId] && r.value.id == postId
    {
      if postId in posts then Some(posts[postId]) else None
    }

    /** `get_posts`: the page of `posts` in table order, `offset(skip).limit(limit)`. */
    function GetPosts(skip: int, limit: int): (r: seq<PostRow>)
      reads this
      requires Valid()
      ensures 0 <= limit ==> |r| <= limit
      ensures var from := if skip < 0 then 0 else skip;
        && |r| == (if |postOrder| <= from then 0 else if 0 <= limit < |postOrder| - from then limit else |postOrder| - from)
        && forall i :: 0 <= i < |r| ==> from + i < |postOrder| && r[i] == posts[postOrder[from + i]]
      ensures forall i :: 0 <= i < |r| ==> r[i].id in posts && posts[r[i].id] == r[i]
      ensures forall i, j :: 0 <= i < j < |r| ==> r[i].id < r[j].id
    {
      var r := Page(Rows(posts, postOrder), skip, limit);
      assert forall i :: 0 <= i < |r| ==> r[i] in posts.Values && r[i].id in posts && posts[r[i].id] == r[i];
      r
    }

    /** `get_posts_count`: the number of rows a scan of `posts` yields. */
    function GetPostsCount(): (n: nat)
      reads this
      requires Valid()
      ensures n == |postOrder|
      ensures |GetPosts(0, n)| == n
    {
      ListedCount(posts, postOrder);
      |posts|
    }

    /** `get_comment`: the row with this primary key, or None. */
    function GetComment(commentId: int): (r: Option<CommentRow>)
      reads this
      requires Valid()
      ensures r.Some? <==> commentId in comments
      ensures r.Some? ==> r.value == comments[commentId] && r.value.id == commentId
    {
      if commentId in comments then Some(comments[commentId]) else None
    }

    /** `get_comments_for_post`: the comments whose `post_id` is `postId`, in table order. */
    function GetCommentsForPost(postId: int): (r: seq<CommentRow>)
      reads this
      requires Valid()
      ensures forall i :: 0 <= i < |r| ==> r[i].postId == postId && r[i].id in comments && comments[r[i].id] == r[i]
      ensures forall k :: k in comments && comments[k].postId == postId ==> comments[k] in r
      ensures forall i, j :: 0 <= i < j < |r| ==> r[i].id < r[j].id
    {
      var ids := ChildIds(comments, commentOrder, postId);
      var r := Rows(comments, ids);
      assert forall k :: k in ids ==> comments[k] in r by {
        forall k | k in ids ensures comments[k] in r {
          var i :| 0 <= i < |ids| && ids[i] == k;
          assert r[i] == comments[k];
        }
      }
      r
    }

    /** `get_comments_count_for_post`: as many as `get_comments_for_post` returns. */
    function GetCommentsCountForPost(postId: int): (n: nat)
      reads this
      requires Valid()
      ensures n == |GetCommentsForPost(postId)|
      ensures n == 0 <==> forall k :: k in comments ==> comments[k].postId != postId
    {
      ChildIdsCount(comments, commentOrder, postId);
      CommentCount(comments, postId)
    }

    /** `create_post`: a new row with the next rowid, the input's fields and `created_at` now. */
    method CreatePost(input: PostCreate, now: Timestamp) returns (row: PostRow)
      requires Valid()
      modifies this
      ensures Valid()
      ensures row.id !in old(posts) && row.id == NextRowId(old(postOrder))
      ensures row == PostRow(row.id, input.title, input.content, input.author, now, None)
      ensures posts == old(posts)[row.id := row] && postOrder == old(postOrder) + [row.id]
      ensures comments == old(comments) && commentOrder == old(commentOrder)
      ensures old(Linked()) ==> Linked()
    {
      var id := NextRowId(postOrder);
      row := PostRow(id, input.title, input.content, input.author, now, None);
      posts := posts[id := row];
      postOrder := postOrder + [id];
    }

    /**
     * `update_post`: None when the id is absent; otherwise one `setattr` per
     * field the payload set, then the commit.
     */
    method UpdatePost(postId: int, u: PostUpdate, now: Timestamp) returns (r: Updated<PostRow>)
      requires Valid()
      modifies this
      ensures Valid()
      ensures postId !in old(posts) ==> r == Missing
      ensures postId in old(posts) && u.HasNull() ==> r == NotNullViolation
      ensures postId in old(posts) && !u.HasNull() ==> r == Updated(UpdatedPost(old(posts)[postId], u, now))
      ensures posts == if r.Updated? then old(posts)[postId := r.row] else old(posts)
      ensures postOrder == old(postOrder) && comments == old(comments) && commentOrder == old(commentOrder)
      ensures !r.Updated? ==> unchanged(this)
    {
      if postId !in posts {
        return Missing;
      }
      var row := posts[postId];
      var items := u.Items();
      var attrs := map[Title := Some(row.title), Content := Some(row.content), Author := Some(row.author)];
      ghost var start := attrs;
      for i := 0 to |items|
        invariant SetAll(attrs, items[i..]) == SetAll(start, items)
      {
        assert items[i..][1..] == items[i + 1..];
        attrs := attrs[items[i].0 := items[i].1];
      }
      assert items[|items|..] == [];
      SetAllWritten(start, items, Title);
      SetAllWritten(start, items, Content);
      SetAllWritten(start, items, Author);
      var title, content, author := attrs[Title], attrs[Content], attrs[Author];
      if title.None? || content.None? || author.None? {
        return NotNullViolation;
      }
      var changed := title.value != row.title || content.value != row.content || author.value != row.author;
      var updated := PostRow(row.id, title.value, content.value, author.value, row.createdAt,
                             if changed then Some(now) else row.updatedAt);
      posts := posts[postId := updated];
      r := Updated(updated);
    }

    /** `delete_post`: False when the id is absent; otherwise the post and, by cascade, its comments go. */
    method DeletePost(postId: int) returns (deleted: bool)
      requires Valid()
      modifies this
      ensures Valid()
      ensures deleted <==> postId in old(posts)
      ensures posts == old(posts) - {postId}
      ensures !deleted ==> unchanged(this)
      ensures deleted ==> postOrder == DropId(old(postOrder), postId)
      ensures deleted ==> comments == Cascade(old(comments), postId)
      ensures deleted ==> commentOrder == OtherIds(old(comments), old(commentOrder), postId)
      ensures deleted ==> |posts| == |old(posts)| - 1
      ensures deleted ==> |comments| == |old(comments)| - old(GetCommentsCountForPost(postId))
      ensures GetPost(postId) == None
      ensures deleted ==> GetCommentsForPost(postId) == []
      ensures old(Linked()) ==> Linked()
    {
      if postId !in posts {
        return false;
      }
      CascadeCount(comments, postId);
      CascadeTable(comments, commentOrder, postId);
      DropTable(posts, postOrder, postId);
      if ForeignKeys(posts, comments) {
        CascadeKeepsForeignKeys(posts, comments, postId);
      }
      posts := posts - {postId};
      postOrder := DropId(postOrder, postId);
      commentOrder := OtherIds(comments, commentOrder, postId);
      comments := Cascade(comments, postId);
      deleted := true;
    }

    /** `create_comment`: a new row under `postId`, which is not checked to exist. */
    method CreateComment(input: CommentCreate, postId: int, now: Timestamp) returns (row: CommentRow)
      requires Valid()
      modifies this
      ensures Valid()
      ensures row.id !in old(comments) && row.id == NextRowId(old(commentOrder))
      ensures row == CommentRow(row.id, input.content, input.author, postId, now, None)
      ensures comments == old(comments)[row.id := row] && commentOrder == old(commentOrder) + [row.id]
      ensures posts == old(posts) && postOrder == old(postOrder)
      ensures Linked() <==> old(Linked()) && postId in posts
    {
      var id := NextRowId(commentOrder);
      row := CommentRow(id, input.content, input.author, postId, now, None);
      comments := comments[id := row];
      commentOrder := commentOrder + [id];
      assert comments[id].postId == postId;
      assert Linked() ==> forall k :: k in old(comments) ==> old(comments)[k] == comments[k];
    }

    /**
     * `update_comment`: None when the id is absent; otherwise one `setattr`
     * per field the payload set, then the commit.
     */
    method UpdateComment(commentId: int, u: CommentUpdate, now: Timestamp) returns (r: Updated<CommentRow>)
      requires Valid()
      modifies this
      ensures Valid()
      ensures commentId !in old(comments) ==> r == Missing
      ensures commentId in old(comments) && u.HasNull() ==> r == NotNullViolation
      ensures commentId in old(comments) && !u.HasNull() ==> r == Updated(UpdatedComment(old(comments)[commentId], u, now))
      ensures comments == if r.Updated? then old(comments)[commentId := r.row] else old(comments)
      ensures commentOrder == old(commentOrder) && posts == old(posts) && postOrder == old(postOrder)
      ensures !r.Updated? ==> unchanged(this)
      ensures Linked() == old(Linked())
    {
      if commentId !in comments {
        return Missing;
      }
      var row := comments[commentId];
      var items := u.Items();
      var attrs := map[Content := Some(row.content), Author := Some(row.author)];
      ghost var start := attrs;
      for i := 0 to |items|
        invariant SetAll(attrs, items[i..]) == SetAll(start, items)
      {
        assert items[i..][1..] == items[i + 1..];
        attrs := attrs[items[i].0 := items[i].1];
      }
      assert items[|items|..] == [];
      SetAllWritten(start, items, Content);
      SetAllWritten(start, items, Author);
      var content, author := attrs[Content], attrs[Author];
      if content.None? || author.None? {
        return NotNullViolation;
      }
      var changed := content.value != row.content || author.value != row.author;
      var updated := CommentRow(row.id, content.value, author.value, row.postId, row.createdAt,
                                if changed then Some(now) else row.updatedAt);
      comments := comments[commentId := updated];
      assert forall k :: k in comments ==> comments[k].postId == old(comments)[k].postId;
      r := Updated(updated);
    }

    /** `delete_comment`: False when the id is absent; otherwise that one row goes. */
    method DeleteComment(commentId: int) returns (deleted: bool)
      requires Valid()
      modifies this
      ensures Valid()
      ensures deleted <==> commentId in old(comments)
      ensures comments == old(comments) - {commentId}
      ensures commentOrder == if deleted then DropId(old(commentOrder), commentId) else old(commentOrder)
      ensures deleted ==> |comments| == |old(comments)| - 1
      ensures posts == old(posts) && postOrder == old(postOrder)
      ensures !deleted ==> unchanged(this)
      ensures old(Linked()) ==> Linked()
    {
      if commentId !in comments {
        return false;
      }
      DropTable(comments, commentOrder, commentId);
      comments := comments - {commentId};
      commentOrder := DropId(commentOrder, commentId);
      deleted := true;
    }
  }
}
