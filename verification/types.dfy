/** The data shapes shared by the server and the client (types.ts). */
module Types {

  datatype Option<+T> = None | Some(value: T)

  type UserId = string
  type PostId = string

  /** A signed-in user as the client sees it. */
  datatype User = User(id: UserId, name: string, email: string)

  /**
   * The client-facing view of a post: the author is denormalised into
   * `userId` and `userName`. Timestamps are integers (milliseconds).
   */
  datatype PostView = PostView(
    id: PostId,
    userId: UserId,
    userName: string,
    text: string,
    imageUrl: Option<string>,
    createdAt: int,
    likes: seq<UserId>)

  /** No two posts in the list share an id. */
  predicate DistinctIds(s: seq<PostView>) {
    forall i, j :: 0 <= i < j < |s| ==> s[i].id != s[j].id
  }
}
