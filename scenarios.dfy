/**
 * Clients of `App` that chain several requests from one client and state
 * what the handlers' contracts guarantee about the sequence.
 */
module Scenarios {
  import opened Wrappers
  import opened Credentials
  import opened Schema
  import opened Tables
  import opened Guards
  import opened Pages
  import opened Blog

  /** After logout, every route behind `requireAuth` answers 401 and changes nothing. */
  method LogoutLocksOut(app: App, postId: Option<int>, subject: Field, title: Field, content: Field)
    returns (dashboard: Outcome, compose: Outcome, edit: Outcome, delete: Outcome)
    requires app.Valid()
    modifies app
    ensures app.Valid()
    ensures dashboard == Unauthorized && compose == Unauthorized && edit == Unauthorized && delete == Unauthorized
    ensures app.posts == old(app.posts) && app.users == old(app.users)
  {
    var _ := app.Logout();
    dashboard := Dashboard(app.session, app.posts);
    compose := app.Compose(subject, title, content);
    edit := app.Edit(postId, subject, title, content);
    delete := app.Delete(postId);
  }

  /**
   * An admin who logs in is sent to the admin dashboard, which then refuses
   * it: login stores only `userId`, and `requireAdmin` reads `isAdmin`.
   */
  method AdminLoginThenDashboard(app: App, email: Field, password: Field) returns (login: Outcome, dashboard: Outcome)
    requires app.Valid()
    modifies app
    ensures app.Valid()
    ensures login == Redirect("/admin/dashboard") ==> dashboard == Forbidden
  {
    login := app.Login(email, password);
    dashboard := AdminDashboard(app.session, app.posts);
  }

  /** Once an admin registration has succeeded, the next one is refused and one admin remains. */
  method SecondAdminRejected(app: App, name: Field, email: Field, password: Field,
                             name': Field, email': Field, password': Field, rejected: bool)
    returns (first: Outcome, second: Outcome)
    requires app.Valid()
    modifies app
    ensures app.Valid() && |AdminRows(app.users.rows)| <= 1
    ensures forall i, j :: 0 <= i < j < |app.users.rows| ==>
              !(app.users.rows[i].role == Admin && app.users.rows[j].role == Admin)
    ensures first.Redirect? ==> second == AdminExists && |AdminRows(app.users.rows)| == 1
  {
    first := app.RegisterAdmin(name, email, password, false);
    second := app.RegisterAdmin(name', email', password', rejected);
    app.OneAdmin();
  }

  /** A composed post reads back with the same subject, title and content, owned by its author. */
  method ComposeThenShow(app: App, subject: Field, title: Field, content: Field) returns (id: int, shown: Outcome)
    requires app.Valid() && Authenticated(app.session)
    modifies app
    ensures app.Valid() && app.session == old(app.session)
    ensures shown == Render("single-post", OnePost(Post(id, CurrentUserId(old(app.session)), subject, title, content), true))
  {
    id := app.posts.nextId;
    var _ := app.Compose(subject, title, content);
    shown := ShowPost(app.session, app.posts, Some(id));
  }

  /**
   * A user registered under a new email can log in with the same password and
   * lands on the regular dashboard, which then lists that user's posts.
   */
  method RegisterThenLogin(app: App, username: Field, email: Field, password: Field)
    returns (register: Outcome, login: Outcome, dashboard: Outcome)
    requires app.Valid() && Truthy(email) && Truthy(password)
    requires UserByEmail(app.users, email.value).None?
    modifies app
    ensures app.Valid()
    ensures register.Redirect? && login == Redirect("/dashboard") && Authenticated(app.session)
    ensures dashboard.Render? && dashboard.view == "dashboard"
  {
    register := app.Register(username, email, password, false);
    var u := User(old(app.users).nextId, username, email, Hash(password.value), Regular, false);
    assert app.users.rows == old(app.users).rows + [u];
    assert UserByEmail(app.users, email.value) == Some(u) by {
      var i := FirstWithEmail(app.users.rows, email.value);
      assert forall j :: 0 <= j < |old(app.users).rows| ==> app.users.rows[j] in old(app.users).rows;
      assert app.users.rows[|old(app.users).rows|] == u;
      assert i == |old(app.users).rows|;
    }
    login := app.Login(email, password);
    dashboard := Dashboard(app.session, app.posts);
  }

  /** Another user's post survives both an edit and a delete by the caller. */
  method ForeignPostSurvives(app: App, id: int, subject: Field, title: Field, content: Field)
    returns (edit: Outcome, delete: Outcome)
    requires app.Valid() && Authenticated(app.session)
    requires id in app.posts.rows && app.posts.rows[id].userId != CurrentUserId(app.session)
    modifies app
    ensures app.Valid()
    ensures edit == Redirect("/dashboard") && delete == DeleteNotAllowed
    ensures app.posts == old(app.posts)
  {
    edit := app.Edit(Some(id), subject, title, content);
    delete := app.Delete(Some(id));
  }
}
