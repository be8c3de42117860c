# Blog API data layer in Dafny

This project models a small blog service's data layer: posts and the comments under them. The service has four layers, each modelled here:

- **Schemas.** Pydantic request schemas with length bounds, and response projections: the full post with its nested comments, the summary, and the list item.
- **Tables.** Two SQLAlchemy tables over SQLite. A comment's `post_id` points at a post, and deleting a post cascades to its comments.
- **Repository.** Create, read, update and delete operations, each run in its own session.
- **Handlers.** Ten FastAPI request handlers. Each one turns a repository `None` or `False` into a 404.

There is one module per source file:

| module | file | form |
|---|---|---|
| `Schemas` | `pydantic_models.dfy` | datatypes with validity predicates, dumps and projections |
| `Db` | `db_models.dfy` | row datatypes, the table invariants, row-id allocation and the cascade |
| `Repository` | `repository.dfy` | the class `Store`: the database, with its two tables as fields. Reads are functions of the tables. `create_*`, `update_*` and `delete_*` are methods that reassign them. |
| `Routes` | `routes.dfy` | the ten handlers of `src/api/routes.py`, as methods over a `Store` that return an HTTP status and body |
| `LegacyRoutes` | `legacy_routes.dfy` | `get_posts` of `route.py`, which lists `PostSummary` rather than `PostListItem` |
| `Http` | `http.dfy` | status codes and response bodies |
| `Wrappers` | `wrappers.dfy` | `Option` |
| `Walkthrough` | `walkthrough.dfy` | request sequences on an empty database, checked by assertions |

Apart from `get_posts`, the nine other handlers of `route.py` match `src/api/routes.py` statement for statement:

| handler | `route.py` lines | modelled by |
|---|---|---|
| `create_post` | 17-21 | `Routes.CreatePost` |
| `get_post` | 48-58 | `Routes.GetPost` |
| `update_post` | 61-71 | `Routes.UpdatePost` |
| `delete_post` | 74-82 | `Routes.DeletePost` |
| `create_comment` | 85-96 | `Routes.CreateComment` |
| `get_comments_for_post` | 99-111 | `Routes.GetCommentsForPost` |
| `get_comment` | 114-124 | `Routes.GetComment` |
| `update_comment` | 127-137 | `Routes.UpdateComment` |
| `delete_comment` | 140-148 | `Routes.DeleteComment` |

For `create_post`, `get_post` and `update_post`, see the lazy-loading line under "Left out": with `repository.py` as shown, these three answer 500.

`blog-api/repository.py` is byte-for-byte the same as `repository.py`, so the `Repository` rows below cover both.

## How the model reads the code

**Row ids.** The primary keys are SQLite `INTEGER PRIMARY KEY` columns without `AUTOINCREMENT`. A new row gets one more than the largest rowid in the table, or 1 when the table is empty (`Db.NextRowId`). After the row with the largest id is deleted, that id can be given out again.

**Scan order.** A query without `ORDER BY` returns rows in ascending rowid order. Each table is therefore a map from id to row plus the ascending list of its ids (`Db.Lists`). `offset(skip).limit(limit)` is SQLite's `LIMIT/OFFSET`: a negative offset counts as 0 and a negative limit means no limit (`Repository.Page`). The handlers only pass `skip >= 0` and `1 <= limit <= 100`.

**Foreign key.** SQLite enforces the declared foreign key only when `PRAGMA foreign_keys` is on, and the engine never turns it on. So `create_comment` can store a comment whose post does not exist.
- "Every comment's post exists" is the predicate `Store.Linked()`. It is not an invariant of the store.
- Every handler preserves it. `create_comment` in the handler checks that the post exists before it inserts.
- `ForeignKey("posts.id")` at db_models.py:37 shows the intent that every comment names a stored post. SQLite does not enforce it, so the model states that intent as `Linked()` and proves which operations keep it.

**Update: unset versus null.** An update payload has three states per field: left out, sent as `null`, and sent with a string (`Schemas.Field`).
- `model_dump(exclude_unset=True)` keeps the fields that were sent, `null` included (`Schemas.DumpExcludeUnset`).
- The repository `setattr`s each kept field in turn (`Repository.SetAll`).
- A `null` that reaches a NOT NULL column makes the commit raise. The handler does not catch that, so the server answers 500 and nothing is stored (`Repository.Updated.NotNullViolation`).
- Left-out fields keep their values.

**`updated_at`.** The column has `onupdate=func.now()`. SQLAlchemy stamps it only when the flush emits an `UPDATE`, which happens only when some column's value actually changed.
- An update that writes the values already stored leaves `updated_at` as it was.
- `created_at` is the server time at insert, and `updated_at` starts NULL.

**Clock.** The database clock is a parameter, `now: Timestamp`, of every operation that writes.

**Validation.** Schema validation happens before a handler runs. Each handler first checks the input's `Valid()`, or the page bounds, and answers 422 when the check fails.

## Model

| member | source | states |
|---|---|---|
| Schemas.BoundaryCases | src/models/pydantic_models.py:6-50 | The empty string and 201 characters are rejected as a title, and 200 characters is accepted. Post content must be non-empty, and 5000 characters is accepted. An author is accepted up to 100 characters, not at 101. A comment is accepted up to 1000 characters, not at 1001. An update with `title=""` is rejected, while omitted update fields are accepted. |
| Schemas.CommentCreateAsUpdate | src/models/pydantic_models.py:6-20 | A comment create dumps exactly `content` and `author`. Sending the same strings as a `CommentUpdate` makes its dump write exactly those entries and no title. That update is accepted iff the create is, so a supplied update field obeys the create bounds. |
| Schemas.PostCreateAsUpdate | src/models/pydantic_models.py:34-50 | A post create dumps exactly `title`, `content` and `author`. Sending the same strings as a `PostUpdate` makes its dump write exactly those three entries. That update is accepted iff the create is. |
| Schemas.DumpExcludeUnset | src/models/pydantic_models.py:46-50 | The dump writes, for each attribute, the value of the last field set for it, and nothing for fields left unset. It is never longer than the field list. |
| Schemas.CommentUpdate.Items | src/models/pydantic_models.py:17-20 | A comment update's dump writes exactly the supplied fields, `null` as None. It never writes a title. |
| Schemas.PostUpdate.Items | src/models/pydantic_models.py:46-50 | A post update's dump writes each supplied field with its value (`null` as None) and nothing for an omitted one. |
| Schemas.CommentViews | src/models/pydantic_models.py:23-31 | Reading comment rows through `CommentResponse` keeps their number and order, one response per row. |
| Schemas.ResponseDefaults | src/models/pydantic_models.py:53-88 | `PostResponse` defaults `updated_at` to None and `comments` to the empty list. `PostSummary` and `PostListItem` default `comment_count` to 0. `CommentResponse` defaults `updated_at` to None. |
| Schemas.ListItemExtendsSummary | src/models/pydantic_models.py:64-88 | A list item holds exactly a summary's fields plus the post's content. |
| Db.PrimaryKeys | db_models.py:13-30 | In a well-formed table no two rows share an id. |
| Db.NextRowId | db_models.py:13 | A new rowid is larger than every id in the table, so it is fresh. It is 1 on an empty table, and otherwise one more than an existing id. |
| Db.Cascade | db_models.py:21 | After the cascade, a comment remains iff it was there and belongs to another post, and every remaining comment is unchanged. |
| Db.CascadeCount | db_models.py:21 | The cascade shrinks the comment table by exactly the post's comment count and leaves the post no comments. |
| Db.CascadeTable | db_models.py:21 | The cascade leaves a well-formed comment table whose scan order is the old order without the post's comments. No remaining comment belongs to the post. |
| Db.ChildIdsCount | db_models.py:21 | The relationship `Post.comments` lists as many comments as have that `post_id`. |
| Db.CascadeKeepsForeignKeys | db_models.py:37 | Deleting a post with its cascade keeps every remaining comment's `post_id` pointing at a stored post. |
| Db.DropTable | db_models.py:13 | Deleting a row by primary key leaves a table that the remaining ids list in ascending order. |
| Db.ListedCount | repository.py:74-80 | A table holds as many rows as its scan returns. |
| Repository.Page | repository.py:34-40 | The page has length `min(limit, rows - offset)`, clamped at 0, with a negative offset read as 0 and a negative limit as none. Entry `i` is row `offset + i`. |
| Repository.PagesTile | repository.py:34-40 | Two consecutive pages concatenate to the page spanning both, so paging through the table neither skips nor repeats a row. |
| Repository.SetAllWritten | repository.py:50-52 | After the `setattr` loop, each attribute holds the last value the dump wrote to it, or its old value if none was written. |
| Repository.UpdatedPost | repository.py:42-58 | Supplied fields are replaced exactly and omitted fields are kept. `id` and `created_at` never change. `updated_at` becomes now exactly when some column's value changed, and otherwise stays as it was. |
| Repository.UpdatedComment | repository.py:118-134 | The same rule as `UpdatedPost`. A comment's `post_id` never changes. |
| Repository.UpdateIdempotent | repository.py:42-58 | Repeating an update at any later time changes nothing, not even `updated_at`. |
| Repository.Store.GetPost | repository.py:26-32 | Returns the stored post with that id, or None iff there is none. It reads only the tables. |
| Repository.Store.GetPosts | repository.py:34-40 | Returns the `LIMIT/OFFSET` slice of the posts in id order: at most `limit` rows with ascending ids. Row `i` is the post at scan position `skip + i`. |
| Repository.Store.GetPostsCount | repository.py:74-80 | Returns the number of stored posts, which is also the length of a page from 0 of that size. |
| Repository.Store.GetComment | repository.py:102-108 | Returns the stored comment with that id, or None iff there is none. |
| Repository.Store.GetCommentsForPost | repository.py:110-116 | Returns exactly the stored comments whose `post_id` is the argument, each once, in ascending id order. |
| Repository.Store.GetCommentsCountForPost | repository.py:150-156 | Equals the length of `get_comments_for_post`. It is 0 iff no comment has that `post_id`. |
| Repository.Store.CreatePost | repository.py:10-22 | Stores one new post with a fresh id, the input's fields, `created_at` now and no `updated_at`, and returns it. Nothing else changes. |
| Repository.Store.UpdatePost | repository.py:42-58 | Returns None and changes nothing when the id is absent. On an explicit null it fails and changes nothing. Otherwise it stores and returns `UpdatedPost`, and no other row changes. |
| Repository.Store.DeletePost | repository.py:60-72 | Returns True iff the post existed. It changes nothing when the post was absent. When it deletes, the post and exactly its comments are gone, the post count drops by 1 and the comment count by the post's comment count. |
| Repository.Store.CreateComment | repository.py:86-100 | Stores one new comment with a fresh id under the given `post_id`, without checking that the post exists. The comments stay linked iff they were and the post exists. |
| Repository.Store.UpdateComment | repository.py:118-134 | The same as `update_post`, for comments. |
| Repository.Store.DeleteComment | repository.py:136-148 | Returns True iff the comment existed, and removes exactly that row. Nothing changes otherwise. |
| Routes.CreatePost | src/api/routes.py:18-22 | Invalid input gets 422 and changes nothing. Otherwise it answers 201 with the new post, which has no comments when the store is linked. |
| Routes.GetPosts | src/api/routes.py:25-47 | Invalid paging (`skip < 0`, `limit < 1` or `limit > 100`) gets 422. Otherwise it answers 200 with one list item per post of the page, in order, each with that post's comment count. |
| Routes.GetPost | src/api/routes.py:50-60 | Answers 404 iff the post is absent, and otherwise 200 with the post and its comments. |
| Routes.UpdatePost | src/api/routes.py:63-73 | Invalid input gets 422 and an absent post 404; explicit null 500; all three change nothing. Otherwise it answers 200 with the updated post and stores it. |
| Routes.DeletePost | src/api/routes.py:76-84 | Answers 204 and deletes the post with its comments when it exists; otherwise it answers 404 and changes nothing. |
| Routes.CreateComment | src/api/routes.py:93-103 | Invalid input gets 422. A missing post gets 404, and no comment is created. Otherwise it answers 201 with the new comment under the path's post, so a linked store stays linked. |
| Routes.GetCommentsForPost | src/api/routes.py:106-118 | Answers 404 when the post is absent, and otherwise 200 with exactly that post's comments. |
| Routes.GetComment | src/api/routes.py:121-131 | Answers 404 iff the comment is absent, and otherwise 200 with the comment. |
| Routes.UpdateComment | src/api/routes.py:134-144 | Follows `update_post`: 422, 404 or 500 with no change, or 200 with the updated comment. |
| Routes.DeleteComment | src/api/routes.py:147-155 | Answers 204 and removes the comment when it exists, and otherwise 404 with no change. |
| LegacyRoutes.GetPosts | route.py:24-45 | Invalid paging gets 422. Otherwise it answers 200 with one summary per post of the page, in order, each without content and with that post's comment count. |

## Left out

- Sessions. Opening and closing a session per call (`SessionLocal()`, `db.close()`) and the refresh after commit are not modelled. Each repository call is one atomic step.
- `src/core/database.py`: the engine, the sessionmaker and table creation are not part of this model. Neither are the `database` and `model` modules that `repository.py` and `route.py` import. The model assumes they are the engine above and the schemas of `src/models/pydantic_models.py`.
- `main.py`, `blog-api/main.py` and `blog-api/route.py`: application set-up and a static root payload. They are not part of this model.
- `init_database.py`: the seeding script is not part of this model.
- Real time: `func.now()` becomes the `now` parameter. Time zones and datetime formatting are left out.
- Concurrency and transaction isolation between simultaneous requests are left out.
- Request decoding, JSON serialisation and the body of a 422 or 500 response are left out. Only the status and the accept/reject decision are modelled.
- `ErrorResponse` and `PaginationResponse`: no handler uses them.
- Lazy loading: the model assumes a post's `comments` are loaded when its `PostResponse` is built, and gives the comments current at that moment. Every method of `repository.py` closes its session in `finally`, which detaches the returned `Post`. Its `comments` relationship (db_models.py:21) is lazy, and neither the query nor `db.refresh` loads it. SQLAlchemy cannot lazy-load on a detached instance and raises `DetachedInstanceError`. So with `repository.py` as shown, `route.py`'s `create_post`, `get_post` and `update_post` (route.py:17-21, 48-58, 61-71) fail while building the response, and the server answers 500. `Routes.CreatePost`, `Routes.GetPost` and `Routes.UpdatePost` give the answer these handlers are written to give: 201 or 200 with the post's comments, as a repository that loads them eagerly would. The repository that `src/api/routes.py` imports, `src/repositories/repository.py`, is not part of this model.
- Integer width: ids and counts are unbounded, so SQLite's 64-bit rowid limit and what happens when it is reached are not modelled.
- String lengths are counted in `char`s of a Dafny string. Pydantic counts Unicode code points.
