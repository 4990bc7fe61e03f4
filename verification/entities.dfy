/**
 The records the client exchanges with the backend. Fields the backend may omit
 are `Option`s; the client reads them with `?.` and `||` defaults.
 */
module Entities {
  import opened JsCore

  /** The signed-in identity: `{ id, username, email, role, avatar? }`. */
  datatype User = User(id: int, username: string, email: string, role: string, avatar: Option<string>)

  /** The author summary embedded in blogs and comments. */
  datatype Author = Author(id: int, username: string, avatar: Option<string>)

  datatype Comment = Comment(id: int, content: string, author: Option<Author>)

  /** A blog as `GET /blogs/:id` returns it; `status` is one of draft, published, scheduled. */
  datatype Blog = Blog(
    id: int,
    title: string,
    description: Option<string>,
    content: string,
    tags: Option<seq<string>>,
    coverImage: Option<string>,
    status: Option<string>,
    author: Option<Author>,
    likesCount: Option<int>,
    isLiked: Option<bool>,
    commentsCount: int,
    comments: seq<Comment>)

  /** Client-side routes the handlers navigate to. */
  datatype Route = LoginRoute | HomeRoute | BlogRoute(blogId: int)
}
