/**
 * The two persisted tables of the blog service, `posts` and `comments`, as
 * SQLAlchemy declares them over SQLite.
 *
 * A table is a map from primary key to row together with the table's scan
 * order: SQLite stores a rowid table in ascending rowid order, and a query
 * without ORDER BY returns its rows in that order.
 */
module Db {
  import opened Wrappers

  /** A reading of the database server's clock (`func.now()`). */
  type Timestamp = nat

  datatype PostRow = PostRow(
    id: int,
    title: string,
    content: string,
    author: string,
    createdAt: Timestamp,
    updatedAt: Option<Timestamp>)

  datatype CommentRow = CommentRow(
    id: int,
    content: string,
    author: string,
    postId: int,
    createdAt: Timestamp,
    updatedAt: Option<Timestamp>)

  predicate Increasing(s: seq<int>) {
    forall i, j :: 0 <= i < j < |s| ==> s[i] < s[j]
  }

  /** `order` lists every key of `m` exactly once, in ascending order. */
  ghost predicate Lists<V>(m: map<int, V>, order: seq<int>) {
    && Increasing(order)
    && (forall i :: 0 <= i < |order| ==> order[i] in m)
    && (forall k :: k in m <==> k in order)
  }

  /** The `posts` table: `id` is the primary key of every row. */
  ghost predicate PostTable(posts: map<int, PostRow>, order: seq<int>) {
    Lists(posts, order) && forall k :: k in posts ==> posts[k].id == k
  }

  /** The `comments` table: `id` is the primary key of every row. */
  ghost predicate CommentTable(comments: map<int, CommentRow>, order: seq<int>) {
    Lists(comments, order) && forall k :: k in comments ==> comments[k].id == k
  }

  /** `id` is a primary key: no two rows of a table share one. */
  lemma PrimaryKeys(posts: map<int, PostRow>, postOrder: seq<int>, comments: map<int, CommentRow>, commentOrder: seq<int>)
    requires PostTable(posts, postOrder) && CommentTable(comments, commentOrder)
    ensures forall a, b :: a in posts && b in posts && a != b ==> posts[a].id != posts[b].id
    ensures forall a, b :: a in comments && b in comments && a != b ==> comments[a].id != comments[b].id
  {
  }

  /** The declared foreign key: every `comments.post_id` names a row of `posts`. */
  predicate ForeignKeys(posts: map<int, PostRow>, comments: map<int, CommentRow>) {
    forall k :: k in comments ==> comments[k].postId in posts
  }

  /** The rows of `m` in the order `order` lists their keys. */
  function Rows<V>(m: map<int, V>, order: seq<int>): (r: seq<V>)
    requires forall i :: 0 <= i < |order| ==> order[i] in m
    ensures |r| == |order|
    ensures forall i :: 0 <= i < |order| ==> r[i] == m[order[i]]
  {
    seq(|order|, i requires 0 <= i < |order| => m[order[i]])
  }

  /**
   * The rowid SQLite gives a new row of a table without AUTOINCREMENT: one
   * more than the largest rowid in the table, or 1 when the table is empty.
   */
  function NextRowId(order: seq<int>): (id: int)
    requires Increasing(order)
    ensures forall k :: k in order ==> k < id
    ensures order == [] ==> id == 1
    ensures order != [] ==> id - 1 in order
  {
    if order == [] then 1 else order[|order| - 1] + 1
  }

  /** `order` without `id`: the scan order once that row is deleted. */
  function DropId(order: seq<int>, id: int): (r: seq<int>)
    ensures forall k :: k in r <==> k in order && k != id
    ensures Increasing(order) ==> Increasing(r)
  {
    if order == [] then []
    else if order[0] == id then DropId(order[1..], id)
    else
      var rest := DropId(order[1..], id);
      if Increasing(order) then PrependIncreasing(order, rest); [order[0]] + rest
      else [order[0]] + rest
  }

  /** The ids, in scan order, of the comments whose `post_id` is `postId`. */
  function ChildIds(comments: map<int, CommentRow>, order: seq<int>, postId: int): (r: seq<int>)
    ensures forall k :: k in r <==> k in order && k in comments && comments[k].postId == postId
    ensures Increasing(order) ==> Increasing(r)
  {
    if order == [] then []
    else
      var rest := ChildIds(comments, order[1..], postId);
      if !(order[0] in comments && comments[order[0]].postId == postId) then rest
      else if Increasing(order) then PrependIncreasing(order, rest); [order[0]] + rest
      else [order[0]] + rest
  }

  /** The ids, in scan order, of every other entry of `order`. */
  function OtherIds(comments: map<int, CommentRow>, order: seq<int>, postId: int): (r: seq<int>)
    ensures forall k :: k in r <==> k in order && !(k in comments && comments[k].postId == postId)
    ensures Increasing(order) ==> Increasing(r)
  {
    if order == [] then []
    else
      var rest := OtherIds(comments, order[1..], postId);
      if order[0] in comments && comments[order[0]].postId == postId then rest
      else if Increasing(order) then PrependIncreasing(order, rest); [order[0]] + rest
      else [order[0]] + rest
  }

  /** Keeping the head of an increasing scan in front of a filtered tail keeps it increasing. */
  lemma PrependIncreasing(order: seq<int>, rest: seq<int>)
    requires Increasing(order) && order != []
    requires Increasing(rest) && forall k :: k in rest ==> k in order[1..]
    ensures Increasing([order[0]] + rest)
  {
    var s := [order[0]] + rest;
    forall i, j | 0 <= i < j < |s| ensures s[i] < s[j] {
      assert s[j] == rest[j - 1] && rest[j - 1] in rest;
      var m :| 0 <= m < |order[1..]| && order[1..][m] == rest[j - 1];
      if i > 0 {
        assert s[i] == rest[i - 1];
      } else {
        assert order[m + 1] == rest[j - 1];
      }
    }
  }

  /** The keys of the comments whose `post_id` is `postId`. */
  function ChildKeys(comments: map<int, CommentRow>, postId: int): set<int> {
    set k | k in comments && comments[k].postId == postId
  }

  /** `SELECT count(*) FROM comments WHERE post_id = postId`. */
  function CommentCount(comments: map<int, CommentRow>, postId: int): nat {
    |ChildKeys(comments, postId)|
  }

  /**
   * The `comments` table after the post `postId` is deleted with
   * `cascade="all, delete-orphan"`: its comments go with it, the rest stay.
   */
  function Cascade(comments: map<int, CommentRow>, postId: int): (r: map<int, CommentRow>)
    ensures forall k :: k in r <==> k in comments && comments[k].postId != postId
    ensures forall k :: k in r ==> r[k] == comments[k]
  {
    map k | k in comments && comments[k].postId != postId :: comments[k]
  }

  /** A strictly increasing sequence has as many distinct elements as entries. */
  lemma {:induction false} IncreasingCard(s: seq<int>)
    requires Increasing(s)
    ensures |set k | k in s| == |s|
  {
    if s != [] {
      IncreasingCard(s[1..]);
      assert (set k | k in s) == {s[0]} + (set k | k in s[1..]);
      assert s[0] !in s[1..];
    }
  }

  /** A table has as many rows as its scan lists. */
  lemma ListedCount<V>(m: map<int, V>, order: seq<int>)
    requires Lists(m, order)
    ensures |m| == |order|
  {
    forall k ensures k in m.Keys <==> k in (set x | x in order) {
    }
    assert m.Keys == set x | x in order;
    IncreasingCard(order);
  }

  /** The relationship `Post.comments` has exactly `CommentCount` entries. */
  lemma ChildIdsCount(comments: map<int, CommentRow>, order: seq<int>, postId: int)
    requires Lists(comments, order)
    ensures |ChildIds(comments, order, postId)| == CommentCount(comments, postId)
  {
    var ids := ChildIds(comments, order, postId);
    forall k ensures k in (set x | x in ids) <==> k in ChildKeys(comments, postId) {
    }
    assert (set x | x in ids) == ChildKeys(comments, postId);
    IncreasingCard(ids);
  }

  /** The cascade removes exactly the post's comments, so the table shrinks by their count. */
  lemma CascadeCount(comments: map<int, CommentRow>, postId: int)
    ensures |Cascade(comments, postId)| == |comments| - CommentCount(comments, postId)
    ensures CommentCount(Cascade(comments, postId), postId) == 0
  {
    var r := Cascade(comments, postId);
    var gone := ChildKeys(comments, postId);
    assert r.Keys == comments.Keys - gone;
    assert gone <= comments.Keys;
    assert |r.Keys| == |comments.Keys| - |gone|;
    assert ChildKeys(r, postId) == {};
  }

  /** The cascade leaves a `comments` table that its remaining ids list in order. */
  lemma CascadeTable(comments: map<int, CommentRow>, order: seq<int>, postId: int)
    requires CommentTable(comments, order)
    ensures CommentTable(Cascade(comments, postId), OtherIds(comments, order, postId))
    ensures ChildIds(Cascade(comments, postId), OtherIds(comments, order, postId), postId) == []
  {
    var rest := OtherIds(comments, order, postId);
    assert forall i :: 0 <= i < |rest| ==> rest[i] in rest;
    CascadeCount(comments, postId);
    ChildIdsCount(Cascade(comments, postId), rest, postId);
  }

  /** Deleting one row leaves a table that its remaining ids list in order. */
  lemma DropTable<V>(m: map<int, V>, order: seq<int>, id: int)
    requires Lists(m, order)
    ensures Lists(m - {id}, DropId(order, id))
  {
    var rest := DropId(order, id);
    assert forall i :: 0 <= i < |rest| ==> rest[i] in rest;
  }

  /** Deleting a post with its cascade keeps every remaining comment's post present. */
  lemma CascadeKeepsForeignKeys(posts: map<int, PostRow>, comments: map<int, CommentRow>, postId: int)
    requires ForeignKeys(posts, comments)
    ensures ForeignKeys(posts - {postId}, Cascade(comments, postId))
  {
  }
}
