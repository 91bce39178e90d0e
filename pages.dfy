/**
 * The GET routes that only read: each is a function of the session record and
 * the tables, answering with a render or an error status.
 */
module Pages {
  import opened Wrappers
  import opened Schema
  import opened Tables
  import opened Guards

  const PostNotFound := Status(404, "Post not found")
  const PostFetchFailed := Status(500, "Error fetching post")
  const EditNotAllowed := Status(404, "Post not found or you do not have permission to edit it.")
  const EditFetchFailed := Status(500, "Error fetching post for edit")

  /** GET `/`: every post, for anyone. */
  function Home(s: Session, posts: PostTable): (out: Outcome)
    requires PostsValid(posts)
    ensures out.Render? && out.view == "home" && out.data.PostList?
    ensures out.data.currentUser == Authenticated(s)
    ensures forall p :: p in out.data.posts <==> Stored(posts, p)
  {
    Render("home", PostList(AllRows(posts), Authenticated(s)))
  }

  /** GET `/register`: the form, never an error. */
  function RegisterForm(s: Session): (out: Outcome)
    ensures out.Render? && out.view == "register" && out.data == Form(Authenticated(s))
  {
    Render("register", Form(Authenticated(s)))
  }

  /** GET `/login`: the form, never an error. */
  function LoginForm(s: Session): (out: Outcome)
    ensures out.Render? && out.view == "login" && out.data == Form(Authenticated(s))
  {
    Render("login", Form(Authenticated(s)))
  }

  /** GET `/dashboard` behind `requireAuth`: exactly the caller's own posts. */
  function Dashboard(s: Session, posts: PostTable): (out: Outcome)
    requires PostsValid(posts)
    ensures !Authenticated(s) <==> out == Unauthorized
    ensures Authenticated(s) ==> out.Render? && out.view == "dashboard" && out.data.PostList? && out.data.currentUser
    ensures Authenticated(s) ==> forall p :: p in out.data.posts <==> Stored(posts, p) && p.userId == CurrentUserId(s)
  {
    if !Authenticated(s) then Unauthorized
    else Render("dashboard", PostList(PostsOf(posts, CurrentUserId(s)), true))
  }

  /**
   * GET `/admin/dashboard` behind `requireAuth` then `requireAdmin`: every
   * post, but only for a session whose `isAdmin` is set.
   */
  function AdminDashboard(s: Session, posts: PostTable): (out: Outcome)
    requires PostsValid(posts)
    ensures !Authenticated(s) ==> out == Unauthorized
    ensures Authenticated(s) && !AdminSession(s) ==> out == Forbidden
    ensures out.Render? <==> Authenticated(s) && AdminSession(s)
    ensures out.Render? ==> out.view == "admin_dashboard" && out.data.AllPosts? &&
                            forall p :: p in out.data.posts <==> Stored(posts, p)
  {
    if !Authenticated(s) then Unauthorized
    else if !AdminSession(s) then Forbidden
    else Render("admin_dashboard", AllPosts(AllRows(posts)))
  }

  /** GET `/compose` behind `requireAuth`: the form. */
  function ComposeForm(s: Session): (out: Outcome)
    ensures !Authenticated(s) <==> out == Unauthorized
    ensures Authenticated(s) ==> out == Render("compose", Form(true))
  {
    if !Authenticated(s) then Unauthorized else Render("compose", Form(true))
  }

  /**
   * GET `/posts/:id`, public: the post with that id, 404 when there is none.
   * `id` is `None` when the path text is not an integer, which the database
   * rejects and the handler answers with 500.
   */
  function ShowPost(s: Session, posts: PostTable, id: Option<int>): (out: Outcome)
    requires PostsValid(posts)
    ensures id.None? ==> out == PostFetchFailed
    ensures id.Some? && id.value !in posts.rows ==> out == PostNotFound
    ensures out.Render? <==> id.Some? && id.value in posts.rows
    ensures out.Render? ==> out.view == "single-post" && out.data.OnePost? &&
                            Stored(posts, out.data.post) && out.data.post.id == id.value &&
                            out.data.currentUser == Authenticated(s)
  {
    match id
    case None => PostFetchFailed
    case Some(n) =>
      match PostById(posts, n)
      case None => PostNotFound
      case Some(p) => Render("single-post", OnePost(p, Authenticated(s)))
  }

  /**
   * GET `/edit/:postId` behind `requireAuth`: the form for one of the caller's
   * own posts; a missing post and another user's post get the same 404.
   */
  function EditForm(s: Session, posts: PostTable, id: Option<int>): (out: Outcome)
    requires PostsValid(posts)
    ensures !Authenticated(s) ==> out == Unauthorized
    ensures Authenticated(s) && id.None? ==> out == EditFetchFailed
    ensures out.Render? <==> Authenticated(s) && id.Some? && id.value in posts.rows &&
                             posts.rows[id.value].userId == CurrentUserId(s)
    ensures Authenticated(s) && id.Some? && !out.Render? ==> out == EditNotAllowed
    ensures out.Render? ==> out == Render("edit", OnePost(posts.rows[id.value], true))
  {
    if !Authenticated(s) then Unauthorized
    else match id
      case None => EditFetchFailed
      case Some(n) =>
        match OwnedPost(posts, n, CurrentUserId(s))
        case None => EditNotAllowed
        case Some(p) => Render("edit", OnePost(p, true))
  }
}
