/**
 * The two tables the handlers touch, and each SQL statement they issue as an
 * operation on them that follows its WHERE clause. Both `id` columns are
 * serial: `nextId` is the value the sequence hands out next, and an INSERT
 * uses one up whether or not it succeeds.
 */
module Tables {
  import opened Wrappers
  import opened Credentials
  import opened Schema

  /** `users`, in insertion order. */
  datatype UserTable = UserTable(rows: seq<User>, nextId: int)

  /** `posts`, keyed by id. */
  datatype PostTable = PostTable(rows: map<int, Post>, nextId: int)

  const NoUsers := UserTable([], 1)
  const NoPosts := PostTable(map[], 1)

  /** Every user id was handed out by the sequence, which starts at 1, and no two rows share one. */
  predicate UsersValid(t: UserTable)
  {
    && t.nextId >= 1
    && (forall i :: 0 <= i < |t.rows| ==> 1 <= t.rows[i].id < t.nextId)
    && (forall i, j :: 0 <= i < j < |t.rows| ==> t.rows[i].id != t.rows[j].id)
  }

  /** Every post is stored under its own id, which the sequence handed out. */
  predicate PostsValid(t: PostTable)
  {
    t.nextId >= 1 && forall k :: k in t.rows ==> t.rows[k].id == k && 1 <= k < t.nextId
  }

  predicate HasUser(t: UserTable, id: int)
  {
    exists i :: 0 <= i < |t.rows| && t.rows[i].id == id
  }

  /** `p` is a row of `t`. */
  predicate Stored(t: PostTable, p: Post)
  {
    p.id in t.rows && t.rows[p.id] == p
  }

  // ---------------------------------------------------------------- users

  /** `INSERT INTO users (...) VALUES (...)`: one new row under a fresh id, the others kept. */
  function InsertUser(t: UserTable, username: Field, email: Field, password: Digest, role: Role, isAdmin: bool): (r: UserTable)
    requires UsersValid(t)
    ensures UsersValid(r)
    ensures |r.rows| == |t.rows| + 1 && r.rows[..|t.rows|] == t.rows
    ensures r.rows[|t.rows|] == User(t.nextId, username, email, password, role, isAdmin)
    ensures forall i :: 0 <= i < |t.rows| ==> t.rows[i].id != r.rows[|t.rows|].id
    ensures forall id :: HasUser(t, id) ==> HasUser(r, id)
  {
    var r := UserTable(t.rows + [User(t.nextId, username, email, password, role, isAdmin)], t.nextId + 1);
    assert forall id :: HasUser(t, id) ==> HasUser(r, id) by {
      forall id | HasUser(t, id) ensures HasUser(r, id) {
        var i :| 0 <= i < |t.rows| && t.rows[i].id == id;
        assert r.rows[i].id == id;
      }
    }
    r
  }

  /**
   * A refused `INSERT INTO users`: the sequence value drawn for the row is
   * used up, no row is added.
   */
  function RefusedUserInsert(t: UserTable): (r: UserTable)
    requires UsersValid(t)
    ensures UsersValid(r) && r.rows == t.rows && r.nextId > t.nextId
  {
    UserTable(t.rows, t.nextId + 1)
  }

  /** Index of the first row whose email is `email`, or `|rows|` when there is none. */
  function FirstWithEmail(rows: seq<User>, email: string): (i: nat)
    ensures i <= |rows|
    ensures i < |rows| ==> rows[i].email == Some(email)
    ensures forall j :: 0 <= j < i ==> rows[j].email != Some(email)
  {
    if |rows| == 0 then 0
    else if rows[0].email == Some(email) then 0
    else 1 + FirstWithEmail(rows[1..], email)
  }

  /** `SELECT * FROM users WHERE email = $1`, then `rows[0]`. */
  function UserByEmail(t: UserTable, email: string): (r: Option<User>)
    ensures r.None? <==> forall u :: u in t.rows ==> u.email != Some(email)
    ensures r.Some? ==> r.value in t.rows && r.value.email == Some(email)
    ensures r.Some? ==> exists i :: 0 <= i < |t.rows| && t.rows[i] == r.value &&
                                    forall j :: 0 <= j < i ==> t.rows[j].email != Some(email)
  {
    var i := FirstWithEmail(t.rows, email);
    if i < |t.rows| then Some(t.rows[i]) else None
  }

  /** `SELECT * FROM users WHERE role = 'admin'`. */
  function AdminRows(rows: seq<User>): (r: seq<User>)
    ensures |r| <= |rows|
    ensures forall u :: u in r ==> u in rows && u.role == Admin
    ensures forall u :: u in rows && u.role == Admin ==> u in r
  {
    if |rows| == 0 then []
    else (if rows[0].role == Admin then [rows[0]] else []) + AdminRows(rows[1..])
  }

  /** Appending a row adds it to the admin rows exactly when it is an admin row. */
  lemma {:induction false} AdminRowsAppend(rows: seq<User>, u: User)
    ensures AdminRows(rows + [u]) == AdminRows(rows) + (if u.role == Admin then [u] else [])
  {
    var tail := if u.role == Admin then [u] else [];
    if |rows| == 0 {
      assert rows + [u] == [u];
      assert AdminRows([u]) == tail + AdminRows([u][1..]);
    } else {
      var head := if rows[0].role == Admin then [rows[0]] else [];
      assert (rows + [u])[0] == rows[0];
      assert (rows + [u])[1..] == rows[1..] + [u];
      calc {
        AdminRows(rows + [u]);
        head + AdminRows(rows[1..] + [u]);
        { AdminRowsAppend(rows[1..], u); }
        head + (AdminRows(rows[1..]) + tail);
        (head + AdminRows(rows[1..])) + tail;
        AdminRows(rows) + tail;
      }
    }
  }

  /** No more than one admin row selected means no two rows of the table are admin rows. */
  lemma {:induction false} AtMostOneAdminRow(rows: seq<User>)
    requires |AdminRows(rows)| <= 1
    ensures forall i, j :: 0 <= i < j < |rows| ==> !(rows[i].role == Admin && rows[j].role == Admin)
  {
    if |rows| > 0 {
      var rest := AdminRows(rows[1..]);
      assert AdminRows(rows) == (if rows[0].role == Admin then [rows[0]] else []) + rest;
      AtMostOneAdminRow(rows[1..]);
      if rows[0].role == Admin {
        assert |rest| == 0;
        forall j | 0 < j < |rows| ensures rows[j].role != Admin {
          assert rows[j] == rows[1..][j - 1];
          assert rows[j] in rows[1..];
        }
      }
      forall i, j | 0 <= i < j < |rows| ensures !(rows[i].role == Admin && rows[j].role == Admin) {
        if i > 0 {
          assert rows[i] == rows[1..][i - 1] && rows[j] == rows[1..][j - 1];
        }
      }
    }
  }

  // ---------------------------------------------------------------- posts

  /** `INSERT INTO posts (user_id, subject, title, content) VALUES (...)`. */
  function InsertPost(t: PostTable, owner: int, subject: Field, title: Field, content: Field): (r: PostTable)
    requires PostsValid(t)
    ensures PostsValid(r) && r.nextId == t.nextId + 1
    ensures t.nextId !in t.rows && r.rows.Keys == t.rows.Keys + {t.nextId}
    ensures forall k :: k in t.rows ==> r.rows[k] == t.rows[k]
    ensures PostById(r, t.nextId) == Some(Post(t.nextId, owner, subject, title, content))
  {
    PostTable(t.rows[t.nextId := Post(t.nextId, owner, subject, title, content)], t.nextId + 1)
  }

  /** `SELECT * FROM posts WHERE id = $1`, then `rows[0]`. */
  function PostById(t: PostTable, id: int): (r: Option<Post>)
    requires PostsValid(t)
    ensures r.Some? <==> id in t.rows
    ensures r.Some? ==> Stored(t, r.value) && r.value.id == id
  {
    if id in t.rows then Some(t.rows[id]) else None
  }

  /** `SELECT * FROM posts WHERE id = $1 AND user_id = $2`, then `rows[0]`. */
  function OwnedPost(t: PostTable, id: int, owner: int): (r: Option<Post>)
    requires PostsValid(t)
    ensures r.Some? <==> PostById(t, id).Some? && PostById(t, id).value.userId == owner
    ensures r.Some? ==> r == PostById(t, id)
  {
    if id in t.rows && t.rows[id].userId == owner then Some(t.rows[id]) else None
  }

  /**
   * `UPDATE posts SET subject = $1, title = $2, content = $3 WHERE id = $4 AND user_id = $5`:
   * changes the one row that matches both, and nothing when none does.
   */
  function UpdateOwnedPost(t: PostTable, id: int, owner: int, subject: Field, title: Field, content: Field): (r: PostTable)
    requires PostsValid(t)
    ensures PostsValid(r) && r.nextId == t.nextId && r.rows.Keys == t.rows.Keys
    ensures forall k :: k in t.rows && k != id ==> r.rows[k] == t.rows[k]
    ensures forall k :: k in t.rows && t.rows[k].userId != owner ==> r.rows[k] == t.rows[k]
    ensures OwnedPost(t, id, owner).Some? ==>
              r.rows[id] == Post(id, owner, subject, title, content)
    ensures OwnedPost(t, id, owner).None? ==> r == t
  {
    if id in t.rows && t.rows[id].userId == owner
    then PostTable(t.rows[id := t.rows[id].(subject := subject, title := title, content := content)], t.nextId)
    else t
  }

  /** `DELETE FROM posts WHERE id = $1`. */
  function DeletePostById(t: PostTable, id: int): (r: PostTable)
    requires PostsValid(t)
    ensures PostsValid(r) && r.nextId == t.nextId
    ensures r.rows.Keys == t.rows.Keys - {id}
    ensures forall k :: k in r.rows ==> r.rows[k] == t.rows[k]
  {
    PostTable(t.rows - {id}, t.nextId)
  }

  /** Every post is stored under its own id. */
  predicate Keyed(rows: map<int, Post>)
  {
    forall k :: k in rows ==> rows[k].id == k
  }

  /** Ids strictly increase along `ps`, so no post appears twice. */
  predicate Ascending(ps: seq<Post>)
  {
    forall i, j :: 0 <= i < j < |ps| ==> ps[i].id < ps[j].id
  }

  /** The rows whose ids lie in `[lo, hi)`, in ascending id order. */
  function RowsBetween(rows: map<int, Post>, lo: int, hi: int): (r: seq<Post>)
    requires Keyed(rows)
    ensures forall p :: p in r ==> lo <= p.id < hi && p.id in rows && rows[p.id] == p
    ensures forall k :: k in rows && lo <= k < hi ==> rows[k] in r
    decreases hi - lo
  {
    if lo >= hi then []
    else
      var rest := RowsBetween(rows, lo + 1, hi);
      var head := if lo in rows then [rows[lo]] else [];
      assert forall p :: p in head + rest ==> p in head || p in rest;
      head + rest
  }

  /** The rows of a range come out in ascending id order. */
  lemma {:induction false} RowsBetweenAscending(rows: map<int, Post>, lo: int, hi: int)
    requires Keyed(rows)
    ensures Ascending(RowsBetween(rows, lo, hi))
    decreases hi - lo
  {
    if lo < hi {
      var rest := RowsBetween(rows, lo + 1, hi);
      RowsBetweenAscending(rows, lo + 1, hi);
      var head: seq<Post> := if lo in rows then [rows[lo]] else [];
      assert RowsBetween(rows, lo, hi) == head + rest;
      forall i, j | 0 <= i < j < |head + rest| ensures (head + rest)[i].id < (head + rest)[j].id {
        if i < |head| {
          assert (head + rest)[j] in rest;
        } else {
          assert (head + rest)[i] == rest[i - |head|] && (head + rest)[j] == rest[j - |head|];
        }
      }
    }
  }

  /**
   * `SELECT * FROM posts`: every row exactly once. The statement has no
   * ORDER BY; the model fixes ascending id order.
   */
  function AllRows(t: PostTable): (r: seq<Post>)
    requires PostsValid(t)
    ensures forall p :: p in r <==> Stored(t, p)
    ensures Ascending(r)
  {
    var r := RowsBetween(t.rows, 1, t.nextId);
    RowsBetweenAscending(t.rows, 1, t.nextId);
    assert forall p :: Stored(t, p) ==> p == t.rows[p.id];
    r
  }

  /** The posts of `ps` whose owner is `owner`, in their order in `ps`. */
  function OwnedBy(ps: seq<Post>, owner: int): (r: seq<Post>)
    ensures forall p :: p in r <==> p in ps && p.userId == owner
  {
    if |ps| == 0 then []
    else (if ps[0].userId == owner then [ps[0]] else []) + OwnedBy(ps[1..], owner)
  }

  /** Filtering by owner keeps ids ascending. */
  lemma {:induction false} OwnedByAscending(ps: seq<Post>, owner: int)
    requires Ascending(ps)
    ensures Ascending(OwnedBy(ps, owner))
  {
    if |ps| > 0 {
      var rest := OwnedBy(ps[1..], owner);
      OwnedByAscending(ps[1..], owner);
      forall p | p in rest ensures ps[0].id < p.id {
        var i :| 0 <= i < |ps[1..]| && ps[1..][i] == p;
        assert ps[i + 1] == p;
      }
      var head: seq<Post> := if ps[0].userId == owner then [ps[0]] else [];
      assert OwnedBy(ps, owner) == head + rest;
      forall i, j | 0 <= i < j < |head + rest| ensures (head + rest)[i].id < (head + rest)[j].id {
        if i < |head| {
          assert (head + rest)[j] in rest;
        } else {
          assert (head + rest)[i] == rest[i - |head|] && (head + rest)[j] == rest[j - |head|];
        }
      }
    }
  }

  /** `SELECT * FROM posts WHERE user_id = $1`. */
  function PostsOf(t: PostTable, owner: int): (r: seq<Post>)
    requires PostsValid(t)
    ensures forall p :: p in r <==> Stored(t, p) && p.userId == owner
    ensures Ascending(r)
  {
    OwnedByAscending(AllRows(t), owner);
    OwnedBy(AllRows(t), owner)
  }
}
