/** Rows of the `users` and `posts` tables, the session record and what a handler answers. */
module Schema {
  import opened Wrappers
  import opened Credentials

  /** A request-body field as the body parser delivers it: absent, or a string. */
  type Field = Option<string>

  /** JavaScript truthiness of a field: `undefined` and `""` are falsy. */
  predicate Truthy(f: Field)
  {
    f.Some? && f.value != ""
  }

  /** The `role` column: the strings 'user' and 'admin'. */
  datatype Role = Regular | Admin

  /** A row of `users`; a field the request left out is stored as NULL (`None`). */
  datatype User = User(id: int, username: Field, email: Field, password: Digest, role: Role, isAdmin: bool)

  /** A row of `posts`. */
  datatype Post = Post(id: int, userId: int, subject: Field, title: Field, content: Field)

  /**
   * The session record of the current client: `userId` is undefined until a
   * login sets it; `isAdmin` is read by the admin guard (undefined reads as false).
   */
  datatype Session = Session(userId: Option<int>, isAdmin: bool)

  /** A fresh session, and the one a client gets after its session is destroyed. */
  const Anonymous := Session(None, false)

  /** The data bag handed to a view. */
  datatype ViewData =
    | PostList(posts: seq<Post>, currentUser: bool)  // home, dashboard
    | AllPosts(posts: seq<Post>)                     // admin_dashboard
    | OnePost(post: Post, currentUser: bool)         // single-post, edit
    | Form(currentUser: bool)                        // register, login, compose
    | LoginMessage(message: string)                  // login, after bad credentials

  /** What a route handler does with the response. */
  datatype Outcome =
    | Status(code: int, msg: string)       // res.status(code).send(msg)
    | Redirect(path: string)               // res.redirect(path)
    | Render(view: string, data: ViewData) // res.render(view, data)
}
