/** The two lifecycle events the post service publishes on its topic
    exchange, with the payload fields it fills in. The constructor names the
    routing key: `post.created` or `post.deleted`. */
module Events {
  import Json

  datatype Event =
    | PostCreated(postId: string, userId: string, content: string, createdAt: int)
    | PostDeleted(postId: string, userId: string, mediaIds: seq<Json.Value>)
}
