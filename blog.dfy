/**
 * The route handlers that change state. One `App` holds the two tables and
 * the session record of the client whose request is being handled; each
 * handler is a method that runs its guard, issues its statements and answers
 * with an `Outcome`.
 */
module Blog {
  import opened Wrappers
  import opened Credentials
  import opened Schema
  import opened Tables
  import opened Guards

  const RegisterFailed := Status(500, "Error registering user")
  const AdminRegisterFailed := Status(500, "Error registering admin")
  const AdminExists := Status(400, "Admin already registered")
  const CredentialsMissing := Status(400, "Email and password are required")
  const BadCredentials := Render("login", LoginMessage("Email or password is incorrect"))
  const UpdateFailed := Status(500, "Error updating post")
  const DeleteFailed := Status(500, "Error deleting post")
  const DeleteNotAllowed := Status(404, "Post not found or you do not have permission to delete it.")

  /** Where both registration handlers send the client afterwards. */
  function LoginRedirect(s: Session): (path: string)
    ensures path == "/login?currentUser=true" || path == "/login?currentUser=false"
    ensures path == "/login?currentUser=true" <==> Authenticated(s)
  {
    "/login?currentUser=" + if Authenticated(s) then "true" else "false"
  }

  class App {
    var users: UserTable
    var posts: PostTable
    var session: Session

    /**
     * The state every handler keeps: both tables well formed, at most one
     * admin row, a session that names a registered user when it names one,
     * and no session ever marked admin (no handler sets `isAdmin`).
     */
    ghost predicate Valid()
      reads this
    {
      && UsersValid(users)
      && PostsValid(posts)
      && |AdminRows(users.rows)| <= 1
      && (session.userId.Some? ==> HasUser(users, session.userId.value))
      && !session.isAdmin
    }

    /** Under `Valid()` no two users have role 'admin'. */
    lemma OneAdmin()
      requires Valid()
      ensures forall i, j :: 0 <= i < j < |users.rows| ==>
                !(users.rows[i].role == Admin && users.rows[j].role == Admin)
    {
      AtMostOneAdminRow(users.rows);
    }

    constructor ()
      ensures Valid()
      ensures users == NoUsers && posts == NoPosts && session == Anonymous
    {
      users, posts, session := NoUsers, NoPosts, Anonymous;
    }

    /**
     * POST `/register`: one new user with role 'user' whose stored password
     * is the digest of the given one. `rejected` says whether the database
     * refuses the INSERT (a constraint such as a unique email).
     */
    method Register(username: Field, email: Field, password: Field, rejected: bool) returns (out: Outcome)
      requires Valid()
      modifies this
      ensures Valid()
      ensures posts == old(posts) && session == old(session)
      ensures password.None? ==> out == RegisterFailed && users == old(users)
      ensures password.Some? && rejected ==> out == RegisterFailed && users == RefusedUserInsert(old(users))
      ensures password.Some? && !rejected ==>
                users == InsertUser(old(users), username, email, Hash(password.value), Regular, false) &&
                out == Redirect(LoginRedirect(session))
      ensures |AdminRows(users.rows)| == |AdminRows(old(users).rows)|
    {
      if password.None? {
        // bcrypt.hash rejects a non-string password
        return RegisterFailed;
      }
      var hashed := Hash(password.value);
      if rejected {
        users := RefusedUserInsert(users);
        return RegisterFailed;
      }
      AdminRowsAppend(users.rows, User(users.nextId, username, email, hashed, Regular, false));
      users := InsertUser(users, username, email, hashed, Regular, false);
      out := Redirect(LoginRedirect(session));
    }

    /**
     * POST `/admin/register` (the first of its two handlers, the one that
     * answers): refuses when an admin row exists, otherwise adds one user with
     * role 'admin' and `is_admin` set.
     */
    method RegisterAdmin(name: Field, email: Field, password: Field, rejected: bool) returns (out: Outcome)
      requires Valid()
      modifies this
      ensures Valid()
      ensures posts == old(posts) && session == old(session)
      ensures |AdminRows(old(users).rows)| > 0 ==> out == AdminExists && users == old(users)
      ensures |AdminRows(old(users).rows)| == 0 && password.None? ==>
                out == AdminRegisterFailed && users == old(users)
      ensures |AdminRows(old(users).rows)| == 0 && password.Some? && rejected ==>
                out == AdminRegisterFailed && users == RefusedUserInsert(old(users))
      ensures |AdminRows(old(users).rows)| == 0 && password.Some? && !rejected ==>
                users == InsertUser(old(users), name, email, Hash(password.value), Admin, true) &&
                out == Redirect(LoginRedirect(session)) &&
                |AdminRows(users.rows)| == 1
    {
      if |AdminRows(users.rows)| > 0 {
        return AdminExists;
      }
      if password.None? {
        return AdminRegisterFailed;
      }
      var hashed := Hash(password.value);
      if rejected {
        users := RefusedUserInsert(users);
        return AdminRegisterFailed;
      }
      var admin := User(users.nextId, name, email, hashed, Admin, true);
      AdminRowsAppend(users.rows, admin);
      users := InsertUser(users, name, email, hashed, Admin, true);
      out := Redirect(LoginRedirect(session));
    }

    /**
     * POST `/login`: an unknown email and a wrong password get the same
     * answer and leave the session alone; a match stores the user's id in the
     * session (and nothing else) and redirects by the user's `is_admin` flag.
     */
    method Login(email: Field, password: Field) returns (out: Outcome)
      requires Valid()
      modifies this
      ensures Valid()
      ensures users == old(users) && posts == old(posts) && session.isAdmin == old(session.isAdmin)
      ensures !Truthy(email) || !Truthy(password) ==> out == CredentialsMissing && session == old(session)
      ensures Truthy(email) && Truthy(password) && UserByEmail(users, email.value).None? ==>
                out == BadCredentials && session == old(session)
      ensures Truthy(email) && Truthy(password) && UserByEmail(users, email.value).Some? &&
              !Compare(password.value, UserByEmail(users, email.value).value.password) ==>
                out == BadCredentials && session == old(session)
      ensures Truthy(email) && Truthy(password) && UserByEmail(users, email.value).Some? &&
              Compare(password.value, UserByEmail(users, email.value).value.password) ==>
                var u := UserByEmail(users, email.value).value;
                session == old(session).(userId := Some(u.id)) && Authenticated(session) &&
                out == Redirect(if u.isAdmin then "/admin/dashboard" else "/dashboard")
    {
      if !Truthy(email) || !Truthy(password) {
        return CredentialsMissing;
      }
      var found := UserByEmail(users, email.value);
      if found.None? {
        return BadCredentials;
      }
      var user := found.value;
      if !Compare(password.value, user.password) {
        return BadCredentials;
      }
      var i :| 0 <= i < |users.rows| && users.rows[i] == user;
      session := session.(userId := Some(user.id));
      assert HasUser(users, users.rows[i].id);
      if user.isAdmin {
        out := Redirect("/admin/dashboard");
      } else {
        out := Redirect("/dashboard");
      }
    }

    /** GET `/logout`: the session is destroyed; the client is anonymous again. */
    method Logout() returns (out: Outcome)
      requires Valid()
      modifies this
      ensures Valid()
      ensures users == old(users) && posts == old(posts)
      ensures session == Anonymous && !Authenticated(session)
      ensures out == Redirect("/login")
    {
      session := Anonymous;
      out := Redirect("/login");
    }

    /** POST `/compose` behind `requireAuth`: a new post owned by the caller. */
    method Compose(subject: Field, title: Field, content: Field) returns (out: Outcome)
      requires Valid()
      modifies this
      ensures Valid()
      ensures users == old(users) && session == old(session)
      ensures !Authenticated(session) ==> out == Unauthorized && posts == old(posts)
      ensures Authenticated(session) ==>
                posts == InsertPost(old(posts), CurrentUserId(session), subject, title, content) &&
                out == Redirect("/dashboard")
    {
      if !Authenticated(session) {
        return Unauthorized;
      }
      posts := InsertPost(posts, CurrentUserId(session), subject, title, content);
      out := Redirect("/dashboard");
    }

    /**
     * POST `/edit/:postId` behind `requireAuth`: updates the post only when it
     * is the caller's, and redirects whether or not a row matched.
     */
    method Edit(postId: Option<int>, subject: Field, title: Field, content: Field) returns (out: Outcome)
      requires Valid()
      modifies this
      ensures Valid()
      ensures users == old(users) && session == old(session)
      ensures !Authenticated(session) ==> out == Unauthorized && posts == old(posts)
      ensures Authenticated(session) && postId.None? ==> out == UpdateFailed && posts == old(posts)
      ensures Authenticated(session) && postId.Some? ==>
                posts == UpdateOwnedPost(old(posts), postId.value, CurrentUserId(session), subject, title, content) &&
                out == Redirect("/dashboard")
      ensures posts.rows.Keys == old(posts).rows.Keys
      ensures forall k :: k in old(posts).rows && old(posts).rows[k] != posts.rows[k] ==>
                Authenticated(session) && postId == Some(k) && old(posts).rows[k].userId == CurrentUserId(session)
    {
      if !Authenticated(session) {
        return Unauthorized;
      }
      if postId.None? {
        return UpdateFailed;
      }
      posts := UpdateOwnedPost(posts, postId.value, CurrentUserId(session), subject, title, content);
      out := Redirect("/dashboard");
    }

    /**
     * POST `/delete/:postId` behind `requireAuth`: removes the post only when
     * it exists and is the caller's; otherwise 404 and nothing changes.
     */
    method Delete(postId: Option<int>) returns (out: Outcome)
      requires Valid()
      modifies this
      ensures Valid()
      ensures users == old(users) && session == old(session)
      ensures !Authenticated(session) ==> out == Unauthorized && posts == old(posts)
      ensures Authenticated(session) && postId.None? ==> out == DeleteFailed && posts == old(posts)
      ensures Authenticated(session) && postId.Some? &&
              OwnedPost(old(posts), postId.value, CurrentUserId(session)).None? ==>
                out == DeleteNotAllowed && posts == old(posts)
      ensures Authenticated(session) && postId.Some? &&
              OwnedPost(old(posts), postId.value, CurrentUserId(session)).Some? ==>
                posts == DeletePostById(old(posts), postId.value) && out == Redirect("/dashboard")
      ensures forall k :: k in old(posts).rows && k !in posts.rows ==>
                Authenticated(session) && postId == Some(k) && old(posts).rows[k].userId == CurrentUserId(session)
      ensures forall k :: k in posts.rows ==> k in old(posts).rows && posts.rows[k] == old(posts).rows[k]
    {
      if !Authenticated(session) {
        return Unauthorized;
      }
      if postId.None? {
        return DeleteFailed;
      }
      var found := OwnedPost(posts, postId.value, CurrentUserId(session));
      if found.None? {
        return DeleteNotAllowed;
      }
      posts := DeletePostById(posts, postId.value);
      out := Redirect("/dashboard");
    }
  }
}
