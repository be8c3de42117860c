/**
 * The request and response schemas of the blog service: the create and
 * update payloads with their field bounds, and the projections a stored row
 * is returned through.
 */
module Schemas {
  import opened Wrappers
  import opened Db

  const TitleMaxLength := 200
  const AuthorMaxLength := 100
  const CommentContentMaxLength := 1000

  /** `title`: `min_length=1, max_length=200`. */
  predicate ValidTitle(s: string) { 1 <= |s| <= TitleMaxLength }

  /** A post's `content`: `min_length=1` and no upper bound. */
  predicate ValidPostContent(s: string) { 1 <= |s| }

  /** `author` of a post or a comment: `min_length=1, max_length=100`. */
  predicate ValidAuthor(s: string) { 1 <= |s| <= AuthorMaxLength }

  /** A comment's `content`: `min_length=1, max_length=1000`. */
  predicate ValidCommentContent(s: string) { 1 <= |s| <= CommentContentMaxLength }

  /** `CommentCreate`: both fields required. */
  datatype CommentCreate = CommentCreate(content: string, author: string) {
    predicate Valid() {
      ValidCommentContent(content) && ValidAuthor(author)
    }

    /** `model_dump()`: exactly the two input fields. */
    function Dump(): (d: map<string, string>)
      ensures d.Keys == {"content", "author"}
      ensures d["content"] == content && d["author"] == author
    {
      map["content" := content, "author" := author]
    }
  }

  /** `PostCreate`: all three fields required. */
  datatype PostCreate = PostCreate(title: string, content: string, author: string) {
    predicate Valid() {
      ValidTitle(title) && ValidPostContent(content) && ValidAuthor(author)
    }

    /** `model_dump()`: exactly the three input fields. */
    function Dump(): (d: map<string, string>)
      ensures d.Keys == {"title", "content", "author"}
      ensures d["title"] == title && d["content"] == content && d["author"] == author
    {
      map["title" := title, "content" := content, "author" := author]
    }
  }

  /** A column that an update payload can write. */
  datatype Attr = Title | Content | Author

  /**
   * One field of an update payload. Pydantic tells a field that was left
   * out (unset) from one sent as `null` and from one sent with a string.
   */
  datatype Field = Omitted | Null | Given(value: string)

  /** The value `model_dump` gives a field that was set. */
  function DumpValue(f: Field): Option<string>
    requires !f.Omitted?
  {
    if f.Given? then Some(f.value) else None
  }

  /** What a dump writes for a field: nothing if it was left out, else its value. */
  function Supply(f: Field): Option<Option<string>> {
    if f.Omitted? then None else Some(DumpValue(f))
  }

  /** The value the last set field named `a` carries, if one was set. */
  function LastSupplied(fields: seq<(Attr, Field)>, a: Attr): Option<Option<string>> {
    if fields == [] then None
    else
      var later := LastSupplied(fields[1..], a);
      if later.Some? then later
      else if fields[0].0 == a then Supply(fields[0].1)
      else None
  }

  /** No two fields of `fields` name the same attribute. */
  predicate DistinctAttrs(fields: seq<(Attr, Field)>) {
    forall j, k :: 0 <= j < k < |fields| ==> fields[j].0 != fields[k].0
  }

  /** A field list that never names `a` supplies nothing for it. */
  lemma {:induction false} LastSuppliedAbsent(fields: seq<(Attr, Field)>, a: Attr)
    requires forall i :: 0 <= i < |fields| ==> fields[i].0 != a
    ensures LastSupplied(fields, a) == None
  {
    if fields != [] {
      LastSuppliedAbsent(fields[1..], a);
    }
  }

  /** When attributes are distinct, the field naming an attribute is the one that supplies it. */
  lemma {:induction false} LastSuppliedAt(fields: seq<(Attr, Field)>, i: int)
    requires DistinctAttrs(fields) && 0 <= i < |fields|
    ensures LastSupplied(fields, fields[i].0) == Supply(fields[i].1)
  {
    if i == 0 {
      LastSuppliedAbsent(fields[1..], fields[0].0);
    } else {
      LastSuppliedAt(fields[1..], i - 1);
    }
  }

  /** The value the last item naming `a` writes, if an item names `a`. */
  function Written(items: seq<(Attr, Option<string>)>, a: Attr): Option<Option<string>> {
    if items == [] then None
    else
      var later := Written(items[1..], a);
      if later.Some? then later
      else if items[0].0 == a then Some(items[0].1)
      else None
  }

  /**
   * `model_dump(exclude_unset=True)`: the fields that were set, in declaration
   * order, each with its value.
   */
  function DumpExcludeUnset(fields: seq<(Attr, Field)>): (items: seq<(Attr, Option<string>)>)
    ensures |items| <= |fields|
    ensures forall a :: Written(items, a) == LastSupplied(fields, a)
  {
    if fields == [] then []
    else
      var rest := DumpExcludeUnset(fields[1..]);
      if fields[0].1.Omitted? then rest
      else
        var item := (fields[0].0, DumpValue(fields[0].1));
        assert ([item] + rest)[1..] == rest;
        [item] + rest
  }

  /** `CommentUpdate`: both fields optional; the bounds apply to a supplied string. */
  datatype CommentUpdate = CommentUpdate(content: Field := Omitted, author: Field := Omitted) {
    predicate Valid() {
      && (content.Given? ==> ValidCommentContent(content.value))
      && (author.Given? ==> ValidAuthor(author.value))
    }

    /** Some field was sent as an explicit `null`. */
    predicate HasNull() {
      content.Null? || author.Null?
    }

    /** The model's fields in declaration order. */
    function Fields(): seq<(Attr, Field)> {
      [(Content, content), (Author, author)]
    }

    /** The dump writes exactly the supplied fields, each with its value, and never a title. */
    function Items(): (items: seq<(Attr, Option<string>)>)
      ensures Written(items, Content) == Supply(content)
      ensures Written(items, Author) == Supply(author)
      ensures Written(items, Title) == None
    {
      var fields := Fields();
      LastSuppliedAt(fields, 0);
      LastSuppliedAt(fields, 1);
      LastSuppliedAbsent(fields, Title);
      DumpExcludeUnset(fields)
    }
  }

  /** `PostUpdate`: all three fields optional; the bounds apply to a supplied string. */
  datatype PostUpdate = PostUpdate(title: Field := Omitted, content: Field := Omitted, author: Field := Omitted) {
    predicate Valid() {
      && (title.Given? ==> ValidTitle(title.value))
      && (content.Given? ==> ValidPostContent(content.value))
      && (author.Given? ==> ValidAuthor(author.value))
    }

    /** Some field was sent as an explicit `null`. */
    predicate HasNull() {
      title.Null? || content.Null? || author.Null?
    }

    /** The model's fields in declaration order. */
    function Fields(): seq<(Attr, Field)> {
      [(Title, title), (Content, content), (Author, author)]
    }

    /** The dump writes exactly the supplied fields, each with its value. */
    function Items(): (items: seq<(Attr, Option<string>)>)
      ensures Written(items, Title) == Supply(title)
      ensures Written(items, Content) == Supply(content)
      ensures Written(items, Author) == Supply(author)
    {
      var fields := Fields();
      LastSuppliedAt(fields, 0);
      LastSuppliedAt(fields, 1);
      LastSuppliedAt(fields, 2);
      DumpExcludeUnset(fields)
    }
  }

  /**
   * A post create payload sent as an update with every field supplied: the
   * update's dump writes exactly the create dump's entries, and the update
   * accepts exactly the payloads the create schema accepts.
   */
  lemma PostCreateAsUpdate(c: PostCreate)
    ensures var u := PostUpdate(Given(c.title), Given(c.content), Given(c.author));
      var d, items := c.Dump(), u.Items();
      && Written(items, Title) == Some(Some(d["title"]))
      && Written(items, Content) == Some(Some(d["content"]))
      && Written(items, Author) == Some(Some(d["author"]))
      && !u.HasNull()
      && u.Valid() == c.Valid()
  {
  }

  /** The same for comments: the update's dump writes the create dump's entries and no title. */
  lemma CommentCreateAsUpdate(c: CommentCreate)
    ensures var u := CommentUpdate(Given(c.content), Given(c.author));
      var d, items := c.Dump(), u.Items();
      && Written(items, Content) == Some(Some(d["content"]))
      && Written(items, Author) == Some(Some(d["author"]))
      && Written(items, Title) == None
      && !u.HasNull()
      && u.Valid() == c.Valid()
  {
  }

  /** `CommentResponse`; `updated_at` defaults to None. */
  datatype CommentResponse = CommentResponse(
    id: int,
    content: string,
    author: string,
    postId: int,
    createdAt: Timestamp,
    updatedAt: Option<Timestamp> := None)

  /** `PostResponse`, the full projection; `updated_at` defaults to None and `comments` to the empty list. */
  datatype PostResponse = PostResponse(
    id: int,
    title: string,
    content: string,
    author: string,
    createdAt: Timestamp,
    updatedAt: Option<Timestamp> := None,
    comments: seq<CommentResponse> := [])

  /** `PostSummary`: no content and no comments, but a comment count that defaults to 0. */
  datatype PostSummary = PostSummary(
    id: int,
    title: string,
    author: string,
    createdAt: Timestamp,
    updatedAt: Option<Timestamp> := None,
    commentCount: int := 0)

  /** `PostListItem`: the summary's fields plus the content. */
  datatype PostListItem = PostListItem(
    id: int,
    title: string,
    content: string,
    author: string,
    createdAt: Timestamp,
    updatedAt: Option<Timestamp> := None,
    commentCount: int := 0)

  /** A comment row read through `from_attributes`. */
  function CommentView(row: CommentRow): CommentResponse {
    CommentResponse(row.id, row.content, row.author, row.postId, row.createdAt, row.updatedAt)
  }

  /** A list of comment rows, each read through `from_attributes`. */
  function CommentViews(rows: seq<CommentRow>): (r: seq<CommentResponse>)
    ensures |r| == |rows|
    ensures forall i :: 0 <= i < |rows| ==> r[i] == CommentView(rows[i])
  {
    seq(|rows|, i requires 0 <= i < |rows| => CommentView(rows[i]))
  }

  /** A post row with its comments read through `from_attributes`. */
  function FullView(row: PostRow, children: seq<CommentRow>): PostResponse {
    PostResponse(row.id, row.title, row.content, row.author, row.createdAt, row.updatedAt, CommentViews(children))
  }

  function SummaryView(row: PostRow, count: int): PostSummary {
    PostSummary(row.id, row.title, row.author, row.createdAt, row.updatedAt, count)
  }

  function ListItemView(row: PostRow, count: int): PostListItem {
    PostListItem(row.id, row.title, row.content, row.author, row.createdAt, row.updatedAt, count)
  }

  /** A string of `n` copies of `c`. */
  function Repeat(c: char, n: nat): (s: string)
    ensures |s| == n
  {
    seq(n, _ => c)
  }

  /** The boundary cases of the field bounds, as the schema tests exercise them. */
  lemma BoundaryCases()
    ensures !PostCreate("", "Valid content", "Test Author").Valid()
    ensures PostCreate(Repeat('x', 200), "c", "a").Valid()
    ensures !PostCreate(Repeat('x', 201), "Valid content", "Test Author").Valid()
    ensures !PostCreate("Valid Title", "", "Test Author").Valid()
    ensures PostCreate("t", Repeat('x', 5000), "a").Valid()
    ensures !PostCreate("Valid Title", "Valid content", "").Valid()
    ensures PostCreate("t", "c", Repeat('x', 100)).Valid() && !PostCreate("t", "c", Repeat('x', 101)).Valid()
    ensures CommentCreate(Repeat('x', 1000), "a").Valid()
    ensures !CommentCreate(Repeat('x', 1001), "Test Author").Valid()
    ensures !CommentCreate("", "Test Author").Valid() && !CommentCreate("Valid content", "").Valid()
    ensures PostUpdate(title := Given("Updated Title")).Valid() && !PostUpdate(title := Given("")).Valid()
    ensures CommentUpdate(content := Given("Updated content")).Valid()
  {
  }

  /** The response defaults: no `updated_at`, no comments, a comment count of 0. */
  lemma ResponseDefaults(id: int, title: string, content: string, author: string, createdAt: Timestamp)
    ensures var p := PostResponse(id, title, content, author, createdAt);
      p.updatedAt == None && p.comments == []
    ensures PostSummary(id, title, author, createdAt).commentCount == 0
    ensures PostListItem(id, title, content, author, createdAt).commentCount == 0
    ensures CommentResponse(id, content, author, id, createdAt).updatedAt == None
  {
  }

  /** A list item carries the same data as a summary, plus the post's content. */
  lemma ListItemExtendsSummary(row: PostRow, count: int)
    ensures var s, l := SummaryView(row, count), ListItemView(row, count);
      && l.content == row.content
      && PostSummary(l.id, l.title, l.author, l.createdAt, l.updatedAt, l.commentCount) == s
  {
  }
}
