/** The HTTP boundary as the handlers see it: a status code and a body. */
module Http {
  import opened Schemas

  const Ok := 200
  const Created := 201
  const NoContent := 204
  const NotFound := 404
  const UnprocessableEntity := 422
  /** What the server answers when a handler lets an exception escape. */
  const InternalServerError := 500

  datatype Body =
    | NoBody
    | PostBody(post: PostResponse)
    | CommentBody(comment: CommentResponse)
    | CommentsBody(comments: seq<CommentResponse>)
    | ListItemsBody(items: seq<PostListItem>)
    | SummariesBody(summaries: seq<PostSummary>)

  datatype Response = Response(status: int, body: Body)
}
