# MindCraft blog: authentication, authorization and post ownership in Dafny

This project models the request handlers of the MindCraft blog (`app.js`), without
Express, EJS or the PostgreSQL driver. What remains is a small state machine:

- a `users` table (id, username, email, password digest, role, is_admin);
- a `posts` table (id, user_id, subject, title, content);
- the session record of the client whose request is handled (`userId`, `isAdmin`).

Each route handler either reads that state or changes it. It answers with an `Outcome`:
`Status(code, msg)`, `Redirect(path)` or `Render(view, data)`.

Modules, one file each:

- `Wrappers` (`wrappers.dfy`): `Option`.
- `Credentials` (`credentials.dfy`): bcrypt kept abstract. `Hash(pw)` yields a `Digest`, which is a type of its own and never a string. `Compare(pw, d)` accepts exactly the password `d` was made from.
- `Schema` (`schema.dfy`): table rows, the session record, view data and outcomes. Request-body fields are `Option<string>`: a field is either absent or a single string. Other shapes the body parsers can produce are left out (see below). JavaScript truthiness (`!email`, `!req.session.userId`) is written out.
- `Tables` (`tables.dfy`): each SQL statement the handlers issue, as an operation on the tables that follows its WHERE clause. Both `id` columns are serial; `nextId` is the next value of the sequence.
- `Guards` (`guards.dfy`): `requireAuth` and `requireAdmin` as functions of the session. Each either rejects the request with its status or lets it through to the handler.
- `Pages` (`pages.dfy`): the GET routes that only read, as functions of the session and the tables.
- `Blog` (`blog.dfy`): class `App` holds the tables and the session. Its methods are the handlers that change state: register, admin register, login, logout, compose, edit and delete. `App.Valid()` is the invariant every handler keeps:
  - both tables are well formed;
  - at most one row has role `admin`;
  - a session that names a user names a registered one;
  - no session has `isAdmin` set.
- `Scenarios` (`scenarios.dfy`): clients that chain requests and state what the contracts guarantee about the sequence.

Behaviour kept exactly as the code has it:

- `requireAdmin` reads `session.isAdmin`, and no handler ever sets it. Login stores only `session.userId`. So `/admin/dashboard` answers 403 to every logged-in client, including an admin whom login has just redirected there (`Scenarios.AdminLoginThenDashboard`).
- `/admin/register` is registered twice. The first handler always ends the response, so only that one is modelled.
- POST `/edit/:postId` runs `UPDATE ... WHERE id = $4 AND user_id = $5` without a lookup. It redirects to `/dashboard` even when no row matched.
- POST `/delete/:postId` checks ownership with a SELECT, then deletes by id alone.
- A path parameter is `Option<int>`. `None` stands for text that PostgreSQL cannot cast to an integer. The handler's catch answers that with 500.

Other facts about the code that the model keeps:

- Login never stores `isAdmin` in the session.
- POST `/register` answers 500 to every failure, a duplicate email included.
- A refused INSERT into `users` still uses up a value of the id sequence, so ids can have gaps.

## Model

| member | source | states |
|---|---|---|
| `Credentials.Compare` | app.js:120 | `bcrypt.compare` against the digest of a password accepts exactly that password; a mismatch is `false`, not an error |
| `Guards.RequireAuth` | app.js:161-166 | rejects with 401 exactly when `session.userId` is falsy (absent or 0), otherwise lets the request through |
| `Guards.RequireAdmin` | app.js:184-193 | rejects with 403 exactly when `session.isAdmin` is not set, otherwise lets the request through |
| `Tables.InsertUser` | app.js:80 | the INSERT adds exactly one row under a fresh id and keeps every earlier row and id; user ids stay distinct |
| `Tables.RefusedUserInsert` | app.js:80-88 | a refused INSERT adds no row but uses up a sequence value |
| `Tables.FirstWithEmail` | app.js:111-112 | index of the first row with that email: that row matches and no earlier row does |
| `Tables.UserByEmail` | app.js:111-112 | `rows[0]` of `WHERE email = $1`: absent iff no row has the email; otherwise a matching row, the earliest inserted one |
| `Tables.AdminRows` | app.js:218 | `WHERE role = 'admin'` selects exactly the admin rows of the table |
| `Tables.AtMostOneAdminRow` | app.js:218-220 | if the selection has at most one row, no two rows of the table are admin rows |
| `Tables.AdminRowsAppend` | app.js:218-227 | inserting a row adds it to the admin rows iff its role is admin, which makes the check-then-insert keep at most one admin |
| `Tables.InsertPost` | app.js:280 | the new post gets a fresh id, the other posts are kept, and selecting the new id gives back the owner, subject, title and content |
| `Tables.PostById` | app.js:294-295 | `WHERE id = $1` finds a row iff the id is stored, and then the row with that id |
| `Tables.OwnedPost` | app.js:324-325 | `WHERE id = $1 AND user_id = $2` finds a row iff the post exists and belongs to the user |
| `Tables.UpdateOwnedPost` | app.js:345 | the UPDATE changes only a post matching both id and owner; every other post, and every post of another owner, is unchanged; with no match the table is unchanged |
| `Tables.DeletePostById` | app.js:370 | the DELETE removes exactly the row with that id and keeps every other row |
| `Tables.RowsBetween` | app.js:51 | lists exactly the stored rows whose ids lie in a range |
| `Tables.RowsBetweenAscending` | app.js:51 | those rows come out in strictly ascending id order, so none is listed twice |
| `Tables.AllRows` | app.js:51 | `SELECT * FROM posts` lists exactly the stored posts, without repeats |
| `Tables.OwnedBy` | app.js:172 | filtering by owner keeps exactly the posts of that owner |
| `Tables.OwnedByAscending` | app.js:172 | filtering by owner keeps ids ascending, so no post is listed twice |
| `Tables.PostsOf` | app.js:172 | `WHERE user_id = $1` lists exactly the stored posts of that owner, without repeats |
| `Pages.Home` | app.js:49-62 | `/` renders every stored post, with `currentUser` true iff the session has a truthy user id |
| `Pages.RegisterForm` | app.js:65-68 | the register form always renders, with `currentUser` from the session |
| `Pages.LoginForm` | app.js:94-97 | the login form always renders, with `currentUser` from the session |
| `Pages.Dashboard` | app.js:161-180 | 401 iff `requireAuth` fails; otherwise it renders exactly the posts whose owner is the session's user |
| `Pages.AdminDashboard` | app.js:184-208 | 401 without a user id, 403 when `isAdmin` is falsy; only a session with both renders, and then every stored post |
| `Pages.ComposeForm` | app.js:268-274 | 401 iff `requireAuth` fails, otherwise the compose form |
| `Pages.ShowPost` | app.js:289-311 | public: a non-integer id gives 500, a missing id gives 404, otherwise the stored post with that id |
| `Pages.EditForm` | app.js:315-336 | 401 without a user; renders iff the post exists and is the caller's; a missing post and another user's post get the same 404 |
| `Blog.LoginRedirect` | app.js:84 | the redirect after registration carries `currentUser=true` iff the session has a truthy user id |
| `Blog.App.Register` | app.js:72-89 | adds exactly one user with role `user` whose stored password is `Hash(password)`, then redirects to `/login`; an absent password gives 500 and no change; a refused INSERT gives 500, adds no row and uses up an id; posts, session and the admin count are unchanged |
| `Blog.App.RegisterAdmin` | app.js:212-236 | 400 and no change when an admin row exists; otherwise adds exactly one user with role `admin` and `is_admin` set, leaving exactly one admin; a missing password or refused INSERT gives 500 and adds no row |
| `Blog.App.OneAdmin` | app.js:218-227 | in every state the handlers keep, no two users have role `admin` |
| `Blog.App.Login` | app.js:101-142 | missing email or password gives 400. An unknown email and a wrong password give the identical login render and leave the session unchanged. A match sets only `session.userId` to that user's id, and redirects to `/admin/dashboard` iff the user's `is_admin` is set |
| `Blog.App.Logout` | app.js:146-156 | the session is destroyed, so `requireAuth` fails afterwards; redirects to `/login` |
| `Blog.App.Compose` | app.js:276-286 | 401 and no change without a user; otherwise inserts one post owned by the session's user and redirects to `/dashboard` |
| `Blog.App.Edit` | app.js:339-351 | 401 without a user. Otherwise it runs the owner-scoped UPDATE and always redirects to `/dashboard`. A post changes only if its id was the one given and its owner is the caller |
| `Blog.App.Delete` | app.js:354-377 | 401 without a user. A post that is missing or not the caller's gives 404 and no change. Otherwise only that post is removed. Every remaining post is unchanged |
| `Scenarios.LogoutLocksOut` | app.js:146-166 | after logout, dashboard, compose, edit and delete all answer 401 and change no table |
| `Scenarios.AdminLoginThenDashboard` | app.js:128-133 | an admin whom login redirects to `/admin/dashboard` is answered 403 there |
| `Scenarios.SecondAdminRejected` | app.js:218-220 | after one successful admin registration the next is refused, and exactly one admin exists; no two users are admins |
| `Scenarios.ComposeThenShow` | app.js:280-306 | a composed post reads back from `/posts/:id` with the same subject, title and content, owned by its author |
| `Scenarios.RegisterThenLogin` | app.js:77-136 | a user registered under a new email logs in with the same password, lands on `/dashboard` and is authenticated |
| `Scenarios.ForeignPostSurvives` | app.js:345-366 | another user's post is untouched by the caller's edit (which still redirects) and delete (which answers 404) |

## Left out

- Express, body-parser, express-session and connect-pg-simple wiring, and `app.listen` (app.js:26-46, 395-397). `db.js` is not part of this model; it only builds the connection pool.
- Session transport and expiry. The model holds the session record of one client. Destroying it leaves that client anonymous (`Anonymous`). Expiry is not modelled.
- Infrastructure failures on reads, on the post INSERT, UPDATE and DELETE, and on session destruction. Each handler maps them to a 500 with no state change. Only the INSERT into `users` carries a failure flag (`rejected`), because a constraint such as a unique email can refuse it there. The model does not define which constraints exist.
- bcrypt internals: the salt, and the truncation of passwords to 72 bytes. `Hash` is treated as injective, so `Compare` accepts only the exact password.
- Request-body values other than a single string. `bodyParser.urlencoded({ extended: true })` turns repeated keys into arrays and bracketed keys into objects. `bodyParser.json` accepts any JSON value. Fields are modelled as absent or a string only.
- The exact set of texts PostgreSQL accepts as an integer path parameter. It is folded into `Option<int>`.
- The row order of SELECT statements without ORDER BY. `SELECT * FROM posts` is listed in ascending id order. For `SELECT * FROM users WHERE email = $1`, the model takes the earliest-inserted matching row as `rows[0]`; this matters only when several users share an email.
- The `is_admin` column default for plain registrations. It is modelled as false. NULL would behave the same, because both are falsy.
- The contact handler (app.js:381-392). It only redirects to `/`.
- The unreachable second `/admin/register` handler (app.js:240-263).
- Concurrency. Requests are handled one at a time, so the race between two concurrent admin registrations is outside the model.
- Console logging.
